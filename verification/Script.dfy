/**
 The request cycle of a script: cursors, named jumps and their resolution (src/script/runner/mod.rs).

 A script's functions are arbitrary functions on the store, which stands for everything that Lua
 code can see and change. `depth` is how many nested calls of `resolve` the stack has room for.
 */
module Script {
  import opened Wrappers

  type Store = map<string, string>

  datatype Reply = Table(spec: nat) | Jump(name: string) | Failure(error: string)

  datatype SpecType = Static(spec: nat) | Dynamic(call: Store -> (Store, Reply))

  datatype LuaSpec = LuaSpec(name: Option<string>, kind: SpecType)

  datatype Resolved =
    | Found(index: nat, spec: nat)
    | CallFailed(index: nat, error: string)
    | UnknownJump(index: nat, name: string)
    | StackOverflow

  // ---------------------------------------------------------------- names

  /** The map that collecting `(name, index)` pairs in order builds. */
  function NameIndex(specs: seq<LuaSpec>): map<string, nat> {
    if specs == [] then map[]
    else
      var earlier, last: nat := NameIndex(specs[..|specs| - 1]), |specs| - 1;
      match specs[last].name
      case None => earlier
      case Some(name) => earlier[name := last]
  }

  /** A name stands for the last spec that carries it. */
  ghost predicate LastNamed(specs: seq<LuaSpec>, name: string, i: nat) {
    && i < |specs| && specs[i].name == Some(name)
    && forall j :: i < j < |specs| ==> specs[j].name != Some(name)
  }

  lemma {:induction false} NamesResolveToLast(specs: seq<LuaSpec>, name: string)
    ensures name in NameIndex(specs) <==> exists i :: 0 <= i < |specs| && specs[i].name == Some(name)
    ensures name in NameIndex(specs) ==> LastNamed(specs, name, NameIndex(specs)[name])
  {
    if specs != [] {
      NamesResolveToLast(specs[..|specs| - 1], name);
    }
  }

  lemma IndexInRange(specs: seq<LuaSpec>, name: string)
    ensures name in NameIndex(specs) ==> NameIndex(specs)[name] < |specs|
  {
    NamesResolveToLast(specs, name);
  }

  // ---------------------------------------------------------------- resolution

  function Resolve(specs: seq<LuaSpec>, cursor: nat, store: Store, depth: nat): (Store, Resolved)
    requires cursor < |specs| && specs[cursor].kind.Dynamic?
    decreases depth
  {
    if depth == 0 then (store, StackOverflow)
    else
      var (store', reply) := specs[cursor].kind.call(store);
      match reply
      case Failure(e) => (store', CallFailed(cursor, e))
      case Table(t) => (store', Found(cursor, t))
      case Jump(name) =>
        IndexInRange(specs, name);
        if name !in NameIndex(specs) then (store', UnknownJump(cursor, name))
        else
          var target := NameIndex(specs)[name];
          match specs[target].kind
          case Static(t) => (store', Found(target, t))
          case Dynamic(_) => Resolve(specs, target, store', depth - 1)
  }

  /** What the cursor stands for now. */
  function NextSpec(specs: seq<LuaSpec>, cursor: nat, store: Store, depth: nat): (Store, Resolved)
    requires cursor < |specs|
  {
    match specs[cursor].kind
    case Static(t) => (store, Found(cursor, t))
    case Dynamic(_) => Resolve(specs, cursor, store, depth)
  }

  // ---------------------------------------------------------------- chains of jumps

  /** A place that a resolution visits, and the store it finds there. */
  datatype Visit = Visit(index: nat, store: Store)

  /** The function at `v` jumps to where `w` is. */
  ghost predicate JumpsTo(specs: seq<LuaSpec>, v: Visit, w: Visit) {
    && v.index < |specs| && specs[v.index].kind.Dynamic?
    && var (store, reply) := specs[v.index].kind.call(v.store);
       store == w.store && reply.Jump? && LastNamed(specs, reply.name, w.index)
  }

  /** The spec at `v` ends the chain: it is static, or its function returns a table. */
  ghost predicate Yields(specs: seq<LuaSpec>, v: Visit, spec: nat, store: Store) {
    && v.index < |specs|
    && match specs[v.index].kind
       case Static(t) => t == spec && store == v.store
       case Dynamic(call) => call(v.store) == (store, Table(spec))
  }

  /** A chain of jumps from its first visit to its last, which yields `spec`. */
  ghost predicate Chain(specs: seq<LuaSpec>, visits: seq<Visit>, spec: nat, store: Store)
    decreases |visits|
  {
    && visits != []
    && if |visits| == 1 then Yields(specs, visits[0], spec, store)
       else JumpsTo(specs, visits[0], visits[1]) && Chain(specs, visits[1..], spec, store)
  }

  lemma LastNamedIsUnique(specs: seq<LuaSpec>, name: string, i: nat)
    requires LastNamed(specs, name, i)
    ensures name in NameIndex(specs) && NameIndex(specs)[name] == i
  {
    NamesResolveToLast(specs, name);
    var k := NameIndex(specs)[name];
    assert LastNamed(specs, name, k);
  }

  /** Every successful resolution follows a chain of jumps, and reports its last index. */
  lemma {:induction false} ResolutionFollowsChain(specs: seq<LuaSpec>, cursor: nat, store: Store, depth: nat)
    returns (visits: seq<Visit>)
    requires cursor < |specs| && specs[cursor].kind.Dynamic?
    requires Resolve(specs, cursor, store, depth).1.Found?
    ensures var (store', r) := Resolve(specs, cursor, store, depth);
            && visits != [] && visits[0] == Visit(cursor, store) && Chain(specs, visits, r.spec, store')
            && visits[|visits| - 1].index == r.index
    decreases depth
  {
    var (store1, reply) := specs[cursor].kind.call(store);
    var here := Visit(cursor, store);
    if reply.Table? {
      visits := [here];
    } else {
      NamesResolveToLast(specs, reply.name);
      var target := NameIndex(specs)[reply.name];
      if specs[target].kind.Static? {
        visits := [here, Visit(target, store1)];
        assert visits[1..] == [Visit(target, store1)];
      } else {
        var rest := ResolutionFollowsChain(specs, target, store1, depth - 1);
        visits := [here] + rest;
        assert visits[1..] == rest;
      }
    }
  }

  /** The function at `v` fails with the error, or jumps to a name that no spec carries. */
  ghost predicate FailsAt(specs: seq<LuaSpec>, v: Visit, r: Resolved, store: Store) {
    && v.index < |specs| && specs[v.index].kind.Dynamic?
    && var (after, reply) := specs[v.index].kind.call(v.store);
       && after == store
       && match reply
          case Failure(e) => r == CallFailed(v.index, e)
          case Jump(name) => r == UnknownJump(v.index, name) && forall j :: 0 <= j < |specs| ==> specs[j].name != Some(name)
          case Table(_) => false
  }

  /** A resolution that fails has followed jumps to the function at fault, and names that function and its error. */
  lemma {:induction false} FailureIsAtItsEnd(specs: seq<LuaSpec>, cursor: nat, store: Store, depth: nat)
    returns (visits: seq<Visit>)
    requires cursor < |specs|
    requires var r := NextSpec(specs, cursor, store, depth).1; r.CallFailed? || r.UnknownJump?
    ensures var (store', r) := NextSpec(specs, cursor, store, depth);
            && 0 < |visits| <= depth && visits[0] == Visit(cursor, store)
            && (forall i :: 0 <= i < |visits| - 1 ==> JumpsTo(specs, visits[i], visits[i + 1]))
            && FailsAt(specs, visits[|visits| - 1], r, store')
    decreases depth
  {
    var (store1, reply) := specs[cursor].kind.call(store);
    visits := [Visit(cursor, store)];
    if reply.Jump? {
      NamesResolveToLast(specs, reply.name);
      if reply.name in NameIndex(specs) {
        var rest := FailureIsAtItsEnd(specs, NameIndex(specs)[reply.name], store1, depth - 1);
        assert JumpsTo(specs, visits[0], rest[0]);
        visits := visits + rest;
      }
    }
  }

  /** Every chain of jumps for which the stack has room is followed to its end. */
  lemma {:induction false} ChainIsResolved(specs: seq<LuaSpec>, visits: seq<Visit>, spec: nat, store: Store, depth: nat)
    requires Chain(specs, visits, spec, store) && |visits| <= depth
    ensures NextSpec(specs, visits[0].index, visits[0].store, depth) == (store, Found(visits[|visits| - 1].index, spec))
    decreases |visits|
  {
    if |visits| > 1 {
      var v, w := visits[0], visits[1];
      var (_, reply) := specs[v.index].kind.call(v.store);
      LastNamedIsUnique(specs, reply.name, w.index);
      ChainIsResolved(specs, visits[1..], spec, store, depth - 1);
    }
  }

  // ---------------------------------------------------------------- when resolution ends

  /** Places linked by jumps, each of them dynamic. */
  ghost predicate DynamicPath(specs: seq<LuaSpec>, visits: seq<Visit>) {
    && (forall i :: 0 <= i < |visits| ==> visits[i].index < |specs| && specs[visits[i].index].kind.Dynamic?)
    && (forall i :: 0 <= i < |visits| - 1 ==> JumpsTo(specs, visits[i], visits[i + 1]))
  }

  /** A path from the cursor that is one visit longer than the stack has room for. */
  ghost predicate OutgrowsStack(specs: seq<LuaSpec>, visits: seq<Visit>, cursor: nat, store: Store, depth: nat) {
    DynamicPath(specs, visits) && |visits| == depth + 1 && visits[0] == Visit(cursor, store)
  }

  lemma {:induction false} OverflowFollowsPath(specs: seq<LuaSpec>, cursor: nat, store: Store, depth: nat)
    returns (visits: seq<Visit>)
    requires cursor < |specs| && NextSpec(specs, cursor, store, depth).1 == StackOverflow
    ensures OutgrowsStack(specs, visits, cursor, store, depth)
    decreases depth
  {
    visits := [Visit(cursor, store)];
    if depth > 0 {
      var (after, reply) := specs[cursor].kind.call(store);
      NamesResolveToLast(specs, reply.name);
      var rest := OverflowFollowsPath(specs, NameIndex(specs)[reply.name], after, depth - 1);
      visits := visits + rest;
    }
  }

  lemma {:induction false} PathOverflows(specs: seq<LuaSpec>, visits: seq<Visit>, depth: nat)
    requires DynamicPath(specs, visits) && |visits| == depth + 1
    ensures NextSpec(specs, visits[0].index, visits[0].store, depth).1 == StackOverflow
    decreases depth
  {
    if depth > 0 {
      assert JumpsTo(specs, visits[0], visits[1]);
      var (_, reply) := specs[visits[0].index].kind.call(visits[0].store);
      LastNamedIsUnique(specs, reply.name, visits[1].index);
      PathOverflows(specs, visits[1..], depth - 1);
    }
  }

  /** A resolution overflows its stack exactly when more dynamic specs are linked by jumps than it has room for. */
  lemma OverflowIffPath(specs: seq<LuaSpec>, cursor: nat, store: Store, depth: nat)
    requires cursor < |specs|
    ensures NextSpec(specs, cursor, store, depth).1 == StackOverflow
       <==> exists visits :: OutgrowsStack(specs, visits, cursor, store, depth)
  {
    if NextSpec(specs, cursor, store, depth).1 == StackOverflow {
      var visits := OverflowFollowsPath(specs, cursor, store, depth);
    }
    if visits :| OutgrowsStack(specs, visits, cursor, store, depth) {
      PathOverflows(specs, visits, depth);
    }
  }

  /** Jumps only go down in rank, whatever the store: no cycle of jumps. */
  ghost predicate Ranked(specs: seq<LuaSpec>, rank: seq<nat>) {
    && |rank| == |specs| && (forall i :: 0 <= i < |rank| ==> rank[i] < |specs|)
    && forall v, w :: JumpsTo(specs, v, w) && w.index < |specs| ==> rank[w.index] < rank[v.index]
  }

  lemma {:induction false} RankDropsAlongPath(specs: seq<LuaSpec>, rank: seq<nat>, visits: seq<Visit>)
    requires Ranked(specs, rank) && DynamicPath(specs, visits) && visits != []
    ensures |visits| <= rank[visits[0].index] + 1
  {
    if |visits| > 1 {
      assert JumpsTo(specs, visits[0], visits[1]);
      RankDropsAlongPath(specs, rank, visits[1..]);
    }
  }

  /** Without a cycle of jumps a resolution makes at most as many calls as there are specs. */
  lemma ResolutionNeedsAtMostAllSpecs(specs: seq<LuaSpec>, rank: seq<nat>, cursor: nat, store: Store)
    requires cursor < |specs| && Ranked(specs, rank)
    ensures NextSpec(specs, cursor, store, |specs|).1 != StackOverflow
  {
    OverflowIffPath(specs, cursor, store, |specs|);
    if visits :| OutgrowsStack(specs, visits, cursor, store, |specs|) {
      RankDropsAlongPath(specs, rank, visits);
    }
  }

  /** More stack changes nothing for a resolution that had enough. */
  lemma {:induction false} DepthDoesNotMatter(specs: seq<LuaSpec>, cursor: nat, store: Store, depth: nat, more: nat)
    requires cursor < |specs| && depth <= more && NextSpec(specs, cursor, store, depth).1 != StackOverflow
    ensures NextSpec(specs, cursor, store, more) == NextSpec(specs, cursor, store, depth)
    decreases depth
  {
    if specs[cursor].kind.Dynamic? {
      var (store1, reply) := specs[cursor].kind.call(store);
      if reply.Jump? {
        IndexInRange(specs, reply.name);
        if reply.name in NameIndex(specs) {
          DepthDoesNotMatter(specs, NameIndex(specs)[reply.name], store1, depth - 1, more - 1);
        }
      }
    }
  }

  /** A spec that jumps to itself overflows any stack. */
  lemma SelfJumpOverflows(name: string, store: Store, depth: nat)
    ensures var loop := LuaSpec(Some(name), Dynamic((s: Store) => (s, Jump(name))));
            NextSpec([loop], 0, store, depth).1 == StackOverflow
  {
    var loop := LuaSpec(Some(name), Dynamic((s: Store) => (s, Jump(name))));
    var visits := seq(depth + 1, i => Visit(0, store));
    assert LastNamed([loop], name, 0);
    assert OutgrowsStack([loop], visits, 0, store, depth);
    OverflowIffPath([loop], 0, store, depth);
  }

  lemma {:induction false} FoundIsInRange(specs: seq<LuaSpec>, cursor: nat, store: Store, depth: nat)
    requires cursor < |specs|
    ensures var r := NextSpec(specs, cursor, store, depth).1; r.Found? ==> r.index < |specs|
    decreases depth
  {
    if specs[cursor].kind.Dynamic? && depth > 0 {
      var (store1, reply) := specs[cursor].kind.call(store);
      if reply.Jump? {
        IndexInRange(specs, reply.name);
        if reply.name in NameIndex(specs) {
          FoundIsInRange(specs, NameIndex(specs)[reply.name], store1, depth - 1);
        }
      }
    }
  }

  // ---------------------------------------------------------------- the runner

  datatype SetupStep = Exhausted | Yielded(id: nat, spec: nat) | SetupFailed(error: Resolved)

  datatype UserStep = Ready(revert: RevertHandle, id: nat, spec: nat) | UserFailed(error: Resolved)

  datatype RevertHandle = RevertHandle(previousCursor: nat)

  class ScriptRunner {
    const setupSpecs: seq<LuaSpec>
    const userSpecs: seq<LuaSpec>
    const depth: nat
    var store: Store
    var setupCursor: nat
    var userCursor: nat

    ghost predicate Valid()
      reads this
    {
      userCursor < |userSpecs|
    }

    /** A script without user requests is refused before this point. */
    constructor (setupSpecs: seq<LuaSpec>, userSpecs: seq<LuaSpec>, store: Store, depth: nat)
      requires userSpecs != []
      ensures Valid() && this.setupSpecs == setupSpecs && this.userSpecs == userSpecs && this.depth == depth
      ensures this.store == store && setupCursor == 0 && userCursor == 0
    {
      this.setupSpecs, this.userSpecs, this.depth := setupSpecs, userSpecs, depth;
      this.store, setupCursor, userCursor := store, 0, 0;
    }

    method NextSetupSpec() returns (step: SetupStep)
      requires Valid()
      modifies this
      ensures Valid() && userCursor == old(userCursor)
      ensures old(setupCursor) >= |setupSpecs| ==> step == Exhausted && setupCursor == old(setupCursor) && store == old(store)
      ensures old(setupCursor) < |setupSpecs| ==>
                var (store', r) := NextSpec(setupSpecs, old(setupCursor), old(store), depth);
                && store == store'
                && (r.Found? ==> step == Yielded(r.index, r.spec) && setupCursor == r.index + 1 <= |setupSpecs|)
                && (!r.Found? ==> step == SetupFailed(r) && setupCursor == old(setupCursor))
    {
      if setupCursor >= |setupSpecs| {
        return Exhausted;
      }
      FoundIsInRange(setupSpecs, setupCursor, store, depth);
      var (store', r) := NextSpec(setupSpecs, setupCursor, store, depth);
      store := store';
      if !r.Found? {
        return SetupFailed(r);
      }
      setupCursor := r.index + 1;
      step := Yielded(r.index, r.spec);
    }

    method NextUserSpec() returns (step: UserStep)
      requires Valid()
      modifies this
      ensures Valid() && setupCursor == old(setupCursor)
      ensures var (store', r) := NextSpec(userSpecs, old(userCursor), old(store), depth);
              && store == store'
              && (r.Found? ==>
                    && r.index < |userSpecs| && userCursor == (r.index + 1) % |userSpecs|
                    && step == Ready(RevertHandle(old(userCursor)), r.index, r.spec))
              && (!r.Found? ==> step == UserFailed(r) && userCursor == old(userCursor))
    {
      var previousCursor := userCursor;
      FoundIsInRange(userSpecs, userCursor, store, depth);
      var (store', r) := NextSpec(userSpecs, userCursor, store, depth);
      store := store';
      if !r.Found? {
        return UserFailed(r);
      }
      userCursor := r.index + 1;
      userCursor := userCursor % |userSpecs|;
      step := Ready(RevertHandle(previousCursor), r.index, r.spec);
    }

    method Revert(handle: RevertHandle)
      requires handle.previousCursor < |userSpecs|
      modifies this`userCursor
      ensures Valid() && userCursor == handle.previousCursor
    {
      userCursor := handle.previousCursor;
    }
  }

  // ---------------------------------------------------------------- revert

  /** With the cursor put back, the next spec is the same one, whatever happened to the store. */
  ghost predicate RevertRepeats(specs: seq<LuaSpec>, cursor: nat)
    requires cursor < |specs|
  {
    forall before: Store, after: Store, depth: nat ::
      NextSpec(specs, cursor, after, depth).1 == NextSpec(specs, cursor, before, depth).1
  }

  /** What a reply comes to at once, or `None` if it is a jump to another function. */
  function AtOnce(specs: seq<LuaSpec>, index: nat, reply: Reply): Option<Resolved> {
    match reply
    case Failure(e) => Some(CallFailed(index, e))
    case Table(t) => Some(Found(index, t))
    case Jump(name) =>
      IndexInRange(specs, name);
      if name !in NameIndex(specs) then Some(UnknownJump(index, name))
      else if specs[NameIndex(specs)[name]].kind.Static? then Some(Found(NameIndex(specs)[name], specs[NameIndex(specs)[name]].kind.spec))
      else None
  }

  /** The calls at `v` and `w` reply alike: both come to the same at once, or both jump to functions that are related. */
  ghost predicate CallsAlike(specs: seq<LuaSpec>, related: iset<(Visit, Visit)>, v: Visit, w: Visit)
    requires v.index < |specs| && specs[v.index].kind.Dynamic? && w.index < |specs| && specs[w.index].kind.Dynamic?
  {
    var (s, a) := specs[v.index].kind.call(v.store);
    var (t, b) := specs[w.index].kind.call(w.store);
    && AtOnce(specs, v.index, a) == AtOnce(specs, w.index, b)
    && (AtOnce(specs, v.index, a) == None ==> (Visit(NameIndex(specs)[a.name], s), Visit(NameIndex(specs)[b.name], t)) in related)
  }

  /** Related places are the same static spec, or functions that reply alike. */
  ghost predicate Unwinds(specs: seq<LuaSpec>, related: iset<(Visit, Visit)>) {
    forall v, w :: (v, w) in related ==>
      && v.index < |specs| && w.index < |specs|
      && if specs[v.index].kind.Static? || specs[w.index].kind.Static? then v.index == w.index
         else CallsAlike(specs, related, v, w)
  }

  /** Some such relation holds at the cursor between any two stores. */
  ghost predicate IndifferentToStore(specs: seq<LuaSpec>, cursor: nat, related: iset<(Visit, Visit)>) {
    Unwinds(specs, related) && forall s, t :: (Visit(cursor, s), Visit(cursor, t)) in related
  }

  lemma {:induction false} RelatedResolveAlike(specs: seq<LuaSpec>, related: iset<(Visit, Visit)>, v: Visit, w: Visit, depth: nat)
    requires Unwinds(specs, related) && (v, w) in related
    ensures NextSpec(specs, v.index, v.store, depth).1 == NextSpec(specs, w.index, w.store, depth).1
    decreases depth
  {
    if specs[v.index].kind.Dynamic? && specs[w.index].kind.Dynamic? && depth > 0 {
      var (s, a) := specs[v.index].kind.call(v.store);
      var (t, b) := specs[w.index].kind.call(w.store);
      assert CallsAlike(specs, related, v, w);
      if AtOnce(specs, v.index, a) == None {
        RelatedResolveAlike(specs, related, Visit(NameIndex(specs)[a.name], s), Visit(NameIndex(specs)[b.name], t), depth - 1);
      }
    }
  }

  /** Places from which every stack resolves to the same. */
  ghost predicate ResolveAlike(specs: seq<LuaSpec>, v: Visit, w: Visit) {
    && v.index < |specs| && w.index < |specs|
    && forall depth: nat :: NextSpec(specs, v.index, v.store, depth).1 == NextSpec(specs, w.index, w.store, depth).1
  }

  ghost function AllAlike(specs: seq<LuaSpec>): iset<(Visit, Visit)> {
    iset v: Visit, w: Visit | ResolveAlike(specs, v, w) :: (v, w)
  }

  lemma AlikeCallAlike(specs: seq<LuaSpec>, v: Visit, w: Visit)
    requires ResolveAlike(specs, v, w) && specs[v.index].kind.Dynamic? && specs[w.index].kind.Dynamic?
    ensures CallsAlike(specs, AllAlike(specs), v, w)
  {
    var (s, a) := specs[v.index].kind.call(v.store);
    var (t, b) := specs[w.index].kind.call(w.store);
    assert NextSpec(specs, v.index, v.store, 1).1 == NextSpec(specs, w.index, w.store, 1).1;
    if AtOnce(specs, v.index, a) == None && AtOnce(specs, w.index, b) == None {
      IndexInRange(specs, a.name);
      IndexInRange(specs, b.name);
      var v', w' := Visit(NameIndex(specs)[a.name], s), Visit(NameIndex(specs)[b.name], t);
      forall depth: nat ensures NextSpec(specs, v'.index, s, depth).1 == NextSpec(specs, w'.index, t, depth).1 {
        assert NextSpec(specs, v.index, v.store, depth + 1).1 == NextSpec(specs, w.index, w.store, depth + 1).1;
      }
      assert ResolveAlike(specs, v', w');
    }
  }

  lemma AllAlikeUnwinds(specs: seq<LuaSpec>)
    ensures Unwinds(specs, AllAlike(specs))
  {
    forall v, w | (v, w) in AllAlike(specs) && (specs[v.index].kind.Static? || specs[w.index].kind.Static?)
      ensures v.index == w.index
    {
      assert NextSpec(specs, v.index, v.store, 0).1 == NextSpec(specs, w.index, w.store, 0).1;
    }
    forall v, w | (v, w) in AllAlike(specs) && specs[v.index].kind.Dynamic? && specs[w.index].kind.Dynamic?
      ensures CallsAlike(specs, AllAlike(specs), v, w)
    {
      AlikeCallAlike(specs, v, w);
    }
  }

  /**
   A revert repeats the spec exactly when the script is indifferent to the store there, call by call: each
   reply is the same up to jumps to functions that are indifferent in turn.
   */
  lemma RevertRepeatsIffIndifferent(specs: seq<LuaSpec>, cursor: nat)
    requires cursor < |specs|
    ensures RevertRepeats(specs, cursor) <==> exists related :: IndifferentToStore(specs, cursor, related)
  {
    if RevertRepeats(specs, cursor) {
      AllAlikeUnwinds(specs);
      forall s: Store, t: Store ensures (Visit(cursor, s), Visit(cursor, t)) in AllAlike(specs) {
        assert ResolveAlike(specs, Visit(cursor, s), Visit(cursor, t));
      }
      assert IndifferentToStore(specs, cursor, AllAlike(specs));
    }
    if related :| IndifferentToStore(specs, cursor, related) {
      forall before: Store, after: Store, depth: nat
        ensures NextSpec(specs, cursor, after, depth).1 == NextSpec(specs, cursor, before, depth).1
      {
        RelatedResolveAlike(specs, related, Visit(cursor, after), Visit(cursor, before), depth);
      }
    }
  }

  /** Every function in `reached` replies the same whatever the store, and its jumps stay within `reached`. */
  ghost predicate StoreIndependent(specs: seq<LuaSpec>, reached: set<nat>) {
    && (forall i :: i in reached ==> i < |specs|)
    && (forall i, s: Store, t: Store :: i in reached && specs[i].kind.Dynamic? ==>
          specs[i].kind.call(s).1 == specs[i].kind.call(t).1)
    && (forall i, s: Store :: i in reached && specs[i].kind.Dynamic? ==> JumpStays(specs, reached, specs[i].kind.call(s).1))
  }

  ghost predicate JumpStays(specs: seq<LuaSpec>, reached: set<nat>, reply: Reply) {
    reply.Jump? && reply.name in NameIndex(specs) ==> NameIndex(specs)[reply.name] in reached
  }

  /** So a revert repeats a static spec, and that of functions that do not look at the store as far as their jumps reach. */
  lemma StoreIndependentRevertRepeats(specs: seq<LuaSpec>, reached: set<nat>, cursor: nat)
    requires StoreIndependent(specs, reached) && cursor in reached
    ensures RevertRepeats(specs, cursor)
  {
    var related := iset i: nat, s: Store, t: Store | i in reached :: (Visit(i, s), Visit(i, t));
    forall v: Visit, w: Visit | (v, w) in related && specs[v.index].kind.Dynamic?
      ensures w.index == v.index && CallsAlike(specs, related, v, w)
    {
      assert JumpStays(specs, reached, specs[v.index].kind.call(v.store).1);
    }
    assert IndifferentToStore(specs, cursor, related);
    RevertRepeatsIffIndifferent(specs, cursor);
  }
}
