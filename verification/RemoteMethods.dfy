/** What a method's compiled functions depend on, collected by a depth-first walk over cyclic graphs. */
module RemoteMethods {
  import opened Basics
  import opened Graphs

  const MAX_STACK_DEPTH: nat := 50
  const EMPTY_HASH: string := ""

  /** A compiled function as it is sent: its data and the functions it needs. */
  datatype JitFn = JitFn(data: nat, rtDependencies: seq<string>, pureFnDependencies: seq<string>)

  /** A pure function: its code, and the hashes of those it needs in its own namespace. */
  datatype PureFn = PureFn(code: string, pureFnDependencies: seq<string>)

  /** Pure functions are named by their full key, namespace::hash. */
  datatype Registry = Registry(jit: map<string, JitFn>, pure: map<string, PureFn>)

  datatype Error =
    | JitTooDeep(name: string)
    | PureTooDeep(name: string)
    | BadFormat(name: string)
    | JitMissing(name: string)
    | PureMissing(name: string)
    | NoCode(name: string)
    | NothingUnderHash(name: string)

  // ---------- Dependency names ----------

  predicate HasSeparator(s: string) {
    exists i :: 0 <= i < |s| - 1 && s[i] == ':' && s[i + 1] == ':'
  }

  /** Splits at the first separator. */
  function SplitFirst(s: string): Option<(string, string)> {
    if |s| < 2 then None
    else if s[0] == ':' && s[1] == ':' then Some(("", s[2..]))
    else
      match SplitFirst(s[1..])
      case None => None
      case Some(parts) => Some(([s[0]] + parts.0, parts.1))
  }

  /** A name of exactly two parts. */
  function ParseDep(name: string): Option<(string, string)> {
    var parts := SplitFirst(name);
    if parts.None? || HasSeparator(parts.value.1) then None else parts
  }

  function Key(namespace: string, hash: string): string {
    namespace + "::" + hash
  }

  /** A namespace that a name was split at: no separator in it, and none formed with the one after it. */
  predicate IsNamespace(s: string) {
    !HasSeparator(s + ":")
  }

  lemma {:induction false} SplitJoins(s: string)
    requires SplitFirst(s).Some?
    ensures Key(SplitFirst(s).value.0, SplitFirst(s).value.1) == s && IsNamespace(SplitFirst(s).value.0)
  {
    if s[0] == ':' && s[1] == ':' {
      assert s == "" + "::" + s[2..];
    } else {
      SplitJoins(s[1..]);
      var rest := SplitFirst(s[1..]).value;
      var ns := [s[0]] + rest.0;
      assert s == [s[0]] + s[1..];
      assert Key(ns, rest.1) == [s[0]] + Key(rest.0, rest.1);
      assert s[1] == Key(rest.0, rest.1)[0];
      forall i | 0 <= i < |ns + ":"| - 1 ensures !((ns + ":")[i] == ':' && (ns + ":")[i + 1] == ':') {
        assert (ns + ":")[i + 1] == (rest.0 + ":")[i];
        if i > 0 { assert (ns + ":")[i] == (rest.0 + ":")[i - 1]; }
      }
    }
  }

  lemma {:induction false} JoinSplits(namespace: string, hash: string)
    requires IsNamespace(namespace)
    ensures SplitFirst(Key(namespace, hash)) == Some((namespace, hash))
  {
    var s := Key(namespace, hash);
    if namespace == "" {
      assert s[2..] == hash;
    } else {
      var rest := namespace[1..];
      forall i | 0 <= i < |rest + ":"| - 1 ensures !((rest + ":")[i] == ':' && (rest + ":")[i + 1] == ':') {
        assert (rest + ":")[i] == (namespace + ":")[i + 1] && (rest + ":")[i + 1] == (namespace + ":")[i + 2];
      }
      JoinSplits(rest, hash);
      assert s[1..] == Key(rest, hash);
      assert s[0] == (namespace + ":")[0] && s[1] == (namespace + ":")[1];
      assert [s[0]] + rest == namespace;
    }
  }

  /** Names and pairs correspond: a well-formed name is the key of its parts, and parts of a name split back. */
  lemma NamesRoundTrip(name: string, hash: string)
    requires ParseDep(name).Some?
    ensures Key(ParseDep(name).value.0, ParseDep(name).value.1) == name
    ensures ParseDep(Key(ParseDep(name).value.0, hash)) ==
            if HasSeparator(hash) then None else Some((ParseDep(name).value.0, hash))
  {
    SplitJoins(name);
    JoinSplits(ParseDep(name).value.0, hash);
  }

  predicate IsBuiltin(name: string) {
    ParseDep(name).Some? && ParseDep(name).value.0 in {"rt", "rtFormats"}
  }

  // ---------- The two graphs ----------

  function JitGraph(reg: Registry): Graph {
    name => if name in reg.jit then reg.jit[name].rtDependencies else []
  }

  function KeysIn(namespace: string, hashes: seq<string>): (keys: seq<string>)
    ensures |keys| == |hashes|
  {
    seq(|hashes|, i requires 0 <= i < |hashes| => Key(namespace, hashes[i]))
  }

  function PureSuccessors(reg: Registry, name: string): seq<string> {
    if ParseDep(name).Some? && !IsBuiltin(name) && name in reg.pure
    then KeysIn(ParseDep(name).value.0, reg.pure[name].pureFnDependencies) else []
  }

  function PureGraph(reg: Registry): Graph {
    name => PureSuccessors(reg, name)
  }

  // ---------- The stack of a walk ----------

  /** The names a walk stands on, oldest first: each named by the one before, all different, registered and listed. */
  ghost predicate Stack<V>(g: Graph, stack: seq<string>, table: map<string, V>, registry: map<string, V>) {
    && NoDup(stack)
    && (forall i :: 0 <= i < |stack| - 1 ==> stack[i + 1] in g(stack[i]))
    && forall x :: x in stack ==> x in table && x in registry
  }

  ghost predicate Calls(g: Graph, stack: seq<string>, next: string) {
    stack == [] || next in g(stack[|stack| - 1])
  }

  /** The name a walk began with. */
  ghost function Root(stack: seq<string>, next: string): string {
    if stack == [] then next else stack[0]
  }

  /** From this name a path of 50 different registered functions leads on to one more. */
  ghost predicate Deep<V(!new)>(g: Graph, registry: map<string, V>, root: string) {
    exists p :: IsDeepPath(g, registry, root, p)
  }

  ghost predicate IsDeepPath<V>(g: Graph, registry: map<string, V>, root: string, p: seq<string>) {
    && |p| == 50 && IsPath(g, p) && p[0] == root && NoDup(p)
    && (forall x :: x in p ==> x in registry) && g(p[|p| - 1]) != []
  }

  lemma EmptyStack<V>(g: Graph, next: string, table: map<string, V>, registry: map<string, V>)
    ensures Stack(g, [], table, registry) && Calls(g, [], next) && Root([], next) == next
  {
  }

  lemma Pushed<V>(g: Graph, stack: seq<string>, x: string, table: map<string, V>, registry: map<string, V>)
    requires Stack(g, stack, table, registry) && Calls(g, stack, x) && x !in table && x in registry
    ensures Stack(g, stack + [x], table[x := registry[x]], registry)
    ensures (stack + [x])[0] == Root(stack, x)
  {
    var all := stack + [x];
    forall i | 0 <= i < |all| - 1 ensures all[i + 1] in g(all[i]) {
      if i < |stack| - 1 { assert stack[i + 1] in g(stack[i]); }
    }
    forall y | y in all ensures y in table[x := registry[x]] && y in registry {
      if y != x { assert y in stack; }
    }
  }

  lemma StackStays<V>(g: Graph, stack: seq<string>, few: map<string, V>, many: map<string, V>, registry: map<string, V>)
    requires Stack(g, stack, few, registry) && few.Keys <= many.Keys
    ensures Stack(g, stack, many, registry)
  {
  }

  lemma FullStackIsDeep<V(!new)>(
    g: Graph, stack: seq<string>, next: string, table: map<string, V>, registry: map<string, V>)
    requires Stack(g, stack, table, registry) && Calls(g, stack, next) && |stack| == MAX_STACK_DEPTH
    ensures Deep(g, registry, Root(stack, next))
  {
    assert IsDeepPath(g, registry, Root(stack, next), stack);
  }

  /** A registry with fewer than 50 functions is never too deep. */
  lemma SmallRegistryIsNotDeep<V(!new)>(g: Graph, registry: map<string, V>, root: string)
    requires |registry| < 50
    ensures !Deep(g, registry, root)
  {
    if p :| IsDeepPath(g, registry, root, p) {
      NoDupCardinality(p);
      CardinalityGrows(Elements(p), registry.Keys);
    }
  }

  /** The pure functions a compiled function needs, directly or through others. */
  ghost predicate NeedsPure(reg: Registry, h: string, name: string) {
    exists j, p :: UsesPure(reg, h, j, p) && Reaches(PureGraph(reg), p, name)
  }

  ghost predicate UsesPure(reg: Registry, h: string, j: string, p: string) {
    Reaches(JitGraph(reg), h, j) && j in reg.jit && p in reg.jit[j].pureFnDependencies
  }

  ghost function PureFrom(reg: Registry, h: string): iset<string> {
    iset name | NeedsPure(reg, h, name)
  }

  /** The pure functions that may be sent: not built in, and with code the client can rebuild. */
  function Sendable(reg: Registry): map<string, PureFn> {
    map name | name in reg.pure && ParseDep(name).Some? && !IsBuiltin(name)
      && reg.pure[name].code != "" :: reg.pure[name]
  }

  /** Is the error one the registry really has at this pure function? */
  ghost predicate PureFault(reg: Registry, e: Error) {
    match e
    case BadFormat(name) => ParseDep(name).None?
    case PureMissing(name) => ParseDep(name).Some? && !IsBuiltin(name) && name !in reg.pure
    case NoCode(name) => ParseDep(name).Some? && !IsBuiltin(name) && name in reg.pure && reg.pure[name].code == ""
    case _ => false
  }

  /** A failed pure walk: an unfit function among `from`, or a path from the root that is too long. */
  ghost predicate PureFailure(reg: Registry, root: string, from: iset<string>, e: Error) {
    if e.PureTooDeep? then Deep(PureGraph(reg), Sendable(reg), root) else PureFault(reg, e) && e.name in from
  }

  lemma PureSuccessorCount(reg: Registry, name: string)
    requires ParseDep(name).Some? && !IsBuiltin(name) && name in reg.pure
    ensures |PureGraph(reg)(name)| == |reg.pure[name].pureFnDependencies|
  {
  }

  /** A dependency stays in its function's namespace, so it is never a built-in. */
  lemma PureSuccessor(reg: Registry, name: string, i: nat)
    requires ParseDep(name).Some? && !IsBuiltin(name) && name in reg.pure && i < |reg.pure[name].pureFnDependencies|
    requires |PureGraph(reg)(name)| == |reg.pure[name].pureFnDependencies|
    ensures PureGraph(reg)(name)[i] == Key(ParseDep(name).value.0, reg.pure[name].pureFnDependencies[i])
    ensures !IsBuiltin(PureGraph(reg)(name)[i])
    ensures From(PureGraph(reg), PureGraph(reg)(name)[i]) <= From(PureGraph(reg), name)
  {
    hide From, ParseDep;
    NamesRoundTrip(name, reg.pure[name].pureFnDependencies[i]);
    FromSuccessor(PureGraph(reg), name, PureGraph(reg)(name)[i]);
  }

  lemma PureFailsToo(reg: Registry, root: string, few: iset<string>, many: iset<string>, e: Error)
    requires few <= many && PureFailure(reg, root, few, e)
    ensures PureFailure(reg, root, many, e)
  {
    hide Deep, Sendable, PureFault;
  }

  ghost predicate AllIn<V>(names: seq<string>, table: map<string, V>) {
    forall s :: s in names ==> s in table
  }

  lemma NoneIn<V>(names: seq<string>, table: map<string, V>)
    ensures AllIn(names[..0], table)
  {
  }

  lemma OneMoreIn<V>(names: seq<string>, i: nat, small: map<string, V>, big: map<string, V>)
    requires i < |names| && AllIn(names[..i], small) && small.Keys <= big.Keys && names[i] in big
    ensures AllIn(names[..i + 1], big)
  {
    assert names[..i + 1] == names[..i] + [names[i]];
  }

  lemma AllAreIn<V>(names: seq<string>, table: map<string, V>)
    requires AllIn(names[..|names|], table)
    ensures forall s :: s in names ==> s in table
  {
    assert names[..|names|] == names;
  }

  class Dependencies {
    var deps: map<string, JitFn>
    var purFnDeps: map<string, PureFn>

    constructor ()
      ensures deps == map[] && purFnDeps == map[]
    {
      deps, purFnDeps := map[], map[];
    }

    /** Adds a pure function and everything it needs. `stack` is what the walk stands on. */
    method SerializePureDeps(
      reg: Registry, name: string, depth: nat, ghost stack: seq<string>) returns (err: Option<Error>)
      requires |stack| == depth <= MAX_STACK_DEPTH
      requires Stack(PureGraph(reg), stack, purFnDeps, Sendable(reg)) && Calls(PureGraph(reg), stack, name)
      modifies this`purFnDeps
      ensures Added(From(PureGraph(reg), name), Sendable(reg), old(purFnDeps), purFnDeps)
      ensures err.None? ==> Settled(PureGraph(reg), old(purFnDeps), purFnDeps) && (IsBuiltin(name) || name in purFnDeps)
      ensures err.Some? ==> PureFailure(reg, Root(stack, name), From(PureGraph(reg), name), err.value)
      decreases MAX_STACK_DEPTH - depth, 1
    {
      hide Added, Settled, From, ParseDep, IsBuiltin, PureGraph, PureSuccessors, Key, Stack, Calls, Root, Deep;
      ghost var g, was := PureGraph(reg), purFnDeps;
      NothingAdded(From(g, name), Sendable(reg), g, was);
      FromItself(g, name);
      if depth >= MAX_STACK_DEPTH {
        FullStackIsDeep(g, stack, name, purFnDeps, Sendable(reg));
        return Some(PureTooDeep(name));
      }
      var parts := ParseDep(name);
      if parts.None? { return Some(BadFormat(name)); }
      if IsBuiltin(name) { return None; }
      if name in purFnDeps { return None; }
      if name !in reg.pure { return Some(PureMissing(name)); }
      if reg.pure[name].code == "" { return Some(NoCode(name)); }
      Pushed(g, stack, name, purFnDeps, Sendable(reg));
      purFnDeps := purFnDeps[name := reg.pure[name]];
      AddedNode(From(g, name), Sendable(reg), was, name);
      err := SerializeHashes(reg, name, parts.value.0, depth, stack + [name], was);
      if err.None? { SettledNode(g, was, name, reg.pure[name], purFnDeps); }
    }

    /** The pure functions one pure function names, in its own namespace. */
    method SerializeHashes(
      reg: Registry, name: string, namespace: string, depth: nat, ghost stack: seq<string>,
      ghost was: map<string, PureFn>)
      returns (err: Option<Error>)
      requires ParseDep(name).Some? && !IsBuiltin(name) && name in reg.pure && namespace == ParseDep(name).value.0
      requires |stack| == depth + 1 <= MAX_STACK_DEPTH && stack[depth] == name
      requires Stack(PureGraph(reg), stack, purFnDeps, Sendable(reg))
      requires Added(From(PureGraph(reg), name), Sendable(reg), was, purFnDeps)
      modifies this`purFnDeps
      ensures Added(From(PureGraph(reg), name), Sendable(reg), was, purFnDeps)
      ensures old(purFnDeps).Keys <= purFnDeps.Keys
      ensures err.None? ==>
          Settled(PureGraph(reg), old(purFnDeps), purFnDeps) && forall s :: s in PureGraph(reg)(name) ==> s in purFnDeps
      ensures err.Some? ==> PureFailure(reg, stack[0], From(PureGraph(reg), name), err.value)
      decreases MAX_STACK_DEPTH - depth, 0
    {
      hide Added, Settled, From, ParseDep, IsBuiltin, PureGraph, PureSuccessors, Key, PureFailure, Sendable, AllIn,
        Stack;
      ghost var g, mid, names := PureGraph(reg), purFnDeps, PureGraph(reg)(name);
      NothingAdded(From(g, name), Sendable(reg), g, mid);
      var hashes := reg.pure[name].pureFnDependencies;
      PureSuccessorCount(reg, name);
      NoneIn(names, mid);
      for i := 0 to |hashes|
        invariant mid.Keys <= purFnDeps.Keys && Stack(g, stack, purFnDeps, Sendable(reg))
        invariant Added(From(g, name), Sendable(reg), was, purFnDeps) && Settled(g, mid, purFnDeps)
        invariant AllIn(names[..i], purFnDeps)
      {
        PureSuccessor(reg, name, i);
        ghost var before := purFnDeps;
        err := SerializePureDeps(reg, Key(namespace, hashes[i]), depth + 1, stack);
        AddedMore(From(g, names[i]), From(g, name), Sendable(reg), was, before, purFnDeps);
        StackStays(g, stack, before, purFnDeps, Sendable(reg));
        if err.Some? {
          PureFailsToo(reg, stack[0], From(g, names[i]), From(g, name), err.value);
          return;
        }
        SettledMore(g, mid, before, purFnDeps);
        OneMoreIn(names, i, before, purFnDeps);
      }
      AllAreIn(names, purFnDeps);
      err := None;
    }

    /** Adds a compiled function, everything it needs, and every pure function those need. */
    method SerializeJitFn(reg: Registry, h: string, depth: nat, ghost stack: seq<string>) returns (err: Option<Error>)
      requires |stack| == depth <= MAX_STACK_DEPTH
      requires Stack(JitGraph(reg), stack, deps, reg.jit) && Calls(JitGraph(reg), stack, h)
      modifies this`deps, this`purFnDeps
      ensures Added(From(JitGraph(reg), h), reg.jit, old(deps), deps)
      ensures Added(PureFrom(reg, h), Sendable(reg), old(purFnDeps), purFnDeps)
      ensures err.None? ==> h in deps && Collected(reg, old(deps), deps, old(purFnDeps), purFnDeps)
      ensures err.Some? ==> JitFailure(reg, Root(stack, h), h, err.value)
      decreases MAX_STACK_DEPTH - depth, 1
    {
      hide Added, Collected, From, PureFrom, JitFailure, Sendable, Stack, Calls, Root, Deep;
      ghost var g, was, pureWas := JitGraph(reg), deps, purFnDeps;
      NothingCollected(reg, h, deps, purFnDeps);
      if depth >= MAX_STACK_DEPTH {
        JitStackIsFull(reg, stack, h, deps);
        return Some(JitTooDeep(h));
      }
      if h !in reg.jit {
        JitIsMissing(reg, Root(stack, h), h);
        return Some(JitMissing(h));
      }
      if h in deps { return None; }
      var fn := reg.jit[h];
      Pushed(g, stack, h, deps, reg.jit);
      deps := deps[h := fn];
      AddedNode(From(g, h), reg.jit, was, h);
      ghost var mid := deps;
      NothingCollected(reg, h, mid, purFnDeps);
      err := SerializeRtDepsOf(reg, h, fn.rtDependencies, depth, stack + [h], was, mid, pureWas);
      if err.Some? { return; }
      err := SerializePureDepsOf(reg, h, fn.pureFnDependencies, mid, pureWas);
      if err.Some? { return; }
      assert forall s :: s in fn.rtDependencies ==> s in deps;
      CollectedNode(reg, h, was, deps, pureWas, purFnDeps);
    }

    /** The first loop: the compiled functions one compiled function names. */
    method SerializeRtDepsOf(
      reg: Registry, h: string, names: seq<string>, depth: nat, ghost stack: seq<string>,
      ghost was: map<string, JitFn>, ghost mid: map<string, JitFn>, ghost pureWas: map<string, PureFn>)
      returns (err: Option<Error>)
      requires h in reg.jit && names == reg.jit[h].rtDependencies
      requires |stack| == depth + 1 <= MAX_STACK_DEPTH && stack[depth] == h
      requires Stack(JitGraph(reg), stack, deps, reg.jit)
      requires Added(From(JitGraph(reg), h), reg.jit, was, deps)
      requires Added(PureFrom(reg, h), Sendable(reg), pureWas, purFnDeps)
      requires Collected(reg, mid, deps, pureWas, purFnDeps)
      modifies this`deps, this`purFnDeps
      ensures Added(From(JitGraph(reg), h), reg.jit, was, deps)
      ensures Added(PureFrom(reg, h), Sendable(reg), pureWas, purFnDeps)
      ensures err.None? ==> Collected(reg, mid, deps, pureWas, purFnDeps) && forall s :: s in names ==> s in deps
      ensures err.Some? ==> JitFailure(reg, stack[0], h, err.value)
      decreases MAX_STACK_DEPTH - depth, 0
    {
      hide Added, Collected, From, PureFrom, JitFailure, Sendable, Stack;
      for i := 0 to |names|
        invariant Stack(JitGraph(reg), stack, deps, reg.jit)
        invariant Added(From(JitGraph(reg), h), reg.jit, was, deps)
        invariant Added(PureFrom(reg, h), Sendable(reg), pureWas, purFnDeps)
        invariant Collected(reg, mid, deps, pureWas, purFnDeps)
        invariant forall j :: 0 <= j < i ==> names[j] in deps
      {
        ghost var before, pureBefore := deps, purFnDeps;
        err := SerializeJitFn(reg, names[i], depth + 1, stack);
        SuccessorAdds(reg, h, names[i], was, before, deps, pureWas, pureBefore, purFnDeps);
        StackStays(JitGraph(reg), stack, before, deps, reg.jit);
        if err.Some? {
          SuccessorFails(reg, stack[0], h, names[i], err.value);
          return;
        }
        CollectedMore(reg, mid, before, deps, pureWas, pureBefore, purFnDeps);
      }
      err := None;
    }

    /** The second loop: the pure functions one compiled function names. */
    method SerializePureDepsOf(
      reg: Registry, h: string, names: seq<string>, ghost mid: map<string, JitFn>, ghost pureWas: map<string, PureFn>)
      returns (err: Option<Error>)
      requires h in reg.jit && names == reg.jit[h].pureFnDependencies
      requires Added(PureFrom(reg, h), Sendable(reg), pureWas, purFnDeps)
      requires Collected(reg, mid, deps, pureWas, purFnDeps)
      modifies this`purFnDeps
      ensures Added(PureFrom(reg, h), Sendable(reg), pureWas, purFnDeps)
      ensures err.None? ==> Collected(reg, mid, deps, pureWas, purFnDeps)
      ensures err.None? ==> forall p :: p in names ==> IsBuiltin(p) || p in purFnDeps
      ensures err.Some? ==> forall root :: JitFailure(reg, root, h, err.value)
    {
      hide Added, Collected, From, PureFrom, PureFailure, JitFailure, IsBuiltin, Sendable;
      for i := 0 to |names|
        invariant Added(PureFrom(reg, h), Sendable(reg), pureWas, purFnDeps)
        invariant Collected(reg, mid, deps, pureWas, purFnDeps)
        invariant forall j :: 0 <= j < i ==> IsBuiltin(names[j]) || names[j] in purFnDeps
      {
        ghost var before := purFnDeps;
        EmptyStack(PureGraph(reg), names[i], purFnDeps, Sendable(reg));
        err := SerializePureDeps(reg, names[i], 0, []);
        NamedIsNeeded(reg, h, names[i]);
        AddedMore(From(PureGraph(reg), names[i]), PureFrom(reg, h), Sendable(reg), pureWas, before, purFnDeps);
        if err.Some? {
          PureFails(reg, h, names[i], err.value);
          return;
        }
        CollectedPure(reg, mid, deps, pureWas, before, purFnDeps);
      }
      err := None;
    }

    /** Adds every registered function of a family of hashes. */
    method SerializeRegistered(reg: Registry, names: seq<string>) returns (err: Option<Error>, foundAny: bool)
      modifies this`deps, this`purFnDeps
      ensures Gathered(reg, names, old(deps), deps, old(purFnDeps), purFnDeps)
      ensures err.None? ==> Complete(reg, names, old(deps), deps, old(purFnDeps), purFnDeps)
      ensures err.None? ==> (foundAny <==> exists f :: f in names && f in reg.jit)
      ensures err.Some? ==> WalkFault(reg, names, err.value)
    {
      hide Added, Collected, FromAny, PureFromAny, JitFailure, From, PureFrom, Complete, Gathered, Sendable;
      foundAny := false;
      NothingGathered(reg, names, deps, purFnDeps);
      for i := 0 to |names|
        invariant Gathered(reg, names, old(deps), deps, old(purFnDeps), purFnDeps)
        invariant Complete(reg, names[..i], old(deps), deps, old(purFnDeps), purFnDeps)
        invariant foundAny <==> exists f :: f in names[..i] && f in reg.jit
      {
        assert names[..i + 1] == names[..i] + [names[i]];
        ghost var before, pureBefore := deps, purFnDeps;
        if names[i] in reg.jit {
          EmptyStack(JitGraph(reg), names[i], deps, reg.jit);
          err := SerializeJitFn(reg, names[i], 0, []);
          MemberAdds(reg, names, names[i], old(deps), before, deps, old(purFnDeps), pureBefore, purFnDeps);
          if err.Some? { return; }
          foundAny := true;
          CompleteMore(reg, names[..i], names[i], old(deps), before, deps, old(purFnDeps), pureBefore, purFnDeps);
        } else {
          CompleteSkip(reg, names[..i], names[i], old(deps), deps, old(purFnDeps), purFnDeps);
        }
      }
      assert names[..|names|] == names;
      err := None;
    }

    /** Adds what a method's parameters and result need. A result hash with nothing registered is an error. */
    method SerializeMethodDeps(reg: Registry, families: string -> seq<string>, paramsHash: string, returnHash: string)
      returns (err: Option<Error>)
      modifies this`deps, this`purFnDeps
      ensures Gathered(reg, Wanted(families, paramsHash, returnHash), old(deps), deps, old(purFnDeps), purFnDeps)
      ensures err.None? ==>
                Complete(reg, Wanted(families, paramsHash, returnHash), old(deps), deps, old(purFnDeps), purFnDeps)
      ensures err.None? ==> (returnHash == EMPTY_HASH || exists f :: f in families(returnHash) && f in reg.jit)
      ensures err.Some? ==> MethodFault(reg, families, paramsHash, returnHash, err.value)
    {
      hide Gathered, Complete, WalkFault;
      ghost var was, pureWas, wanted := deps, purFnDeps, Wanted(families, paramsHash, returnHash);
      var names := if paramsHash == EMPTY_HASH then [] else families(paramsHash);
      ghost var rest := if returnHash == EMPTY_HASH then [] else families(returnHash);
      var foundAny;
      err, foundAny := SerializeRegistered(reg, names);
      GatheredMore(reg, names, rest, was, deps, deps, pureWas, purFnDeps, purFnDeps);
      if err.Some? {
        FaultOfMore(reg, names, names + rest, err.value);
        return;
      }
      ghost var mid, pureMid := deps, purFnDeps;
      if returnHash == EMPTY_HASH {
        assert names + rest == names;
        return;
      }
      err, foundAny := SerializeRegistered(reg, families(returnHash));
      GatheredMore(reg, names, rest, was, mid, deps, pureWas, pureMid, purFnDeps);
      if err.Some? {
        FaultOfMore(reg, rest, names + rest, err.value);
        return;
      }
      if !foundAny { return Some(NothingUnderHash(returnHash)); }
      CompleteBoth(reg, names, rest, was, mid, deps, pureWas, pureMid, purFnDeps);
    }
  }

  function Wanted(families: string -> seq<string>, paramsHash: string, returnHash: string): seq<string> {
    (if paramsHash == EMPTY_HASH then [] else families(paramsHash)) +
    (if returnHash == EMPTY_HASH then [] else families(returnHash))
  }

  // ---------- Several roots ----------

  ghost predicate ReachedFromAny(reg: Registry, names: seq<string>, k: string) {
    exists f :: f in names && f in reg.jit && Reaches(JitGraph(reg), f, k)
  }

  ghost predicate NeededByAny(reg: Registry, names: seq<string>, p: string) {
    exists f :: f in names && f in reg.jit && NeedsPure(reg, f, p)
  }

  ghost function FromAny(reg: Registry, names: seq<string>): iset<string> {
    iset k | ReachedFromAny(reg, names, k)
  }

  ghost function PureFromAny(reg: Registry, names: seq<string>): iset<string> {
    iset p | NeededByAny(reg, names, p)
  }

  /** Only what the registered names need was added. */
  ghost predicate Gathered(
    reg: Registry, names: seq<string>, was: map<string, JitFn>, now: map<string, JitFn>, pureWas: map<string, PureFn>,
    pureNow: map<string, PureFn>)
  {
    && Added(FromAny(reg, names), reg.jit, was, now)
    && Added(PureFromAny(reg, names), Sendable(reg), pureWas, pureNow)
  }

  /** Every registered name was added, and everything that was added has what it needs. */
  ghost predicate Complete(
    reg: Registry, names: seq<string>, was: map<string, JitFn>, now: map<string, JitFn>, pureWas: map<string, PureFn>,
    pureNow: map<string, PureFn>)
  {
    Collected(reg, was, now, pureWas, pureNow) && forall f :: f in names && f in reg.jit ==> f in now
  }

  lemma NothingGathered(reg: Registry, names: seq<string>, table: map<string, JitFn>, pure: map<string, PureFn>)
    ensures Gathered(reg, names, table, table, pure, pure) && Complete(reg, names[..0], table, table, pure, pure)
  {
  }

  lemma MemberAdds(
    reg: Registry, names: seq<string>, f: string, was: map<string, JitFn>, mid: map<string, JitFn>,
    now: map<string, JitFn>, pureWas: map<string, PureFn>, pureMid: map<string, PureFn>, pureNow: map<string, PureFn>)
    requires f in names && f in reg.jit && Gathered(reg, names, was, mid, pureWas, pureMid)
    requires Added(From(JitGraph(reg), f), reg.jit, mid, now)
    requires Added(PureFrom(reg, f), Sendable(reg), pureMid, pureNow)
    ensures Gathered(reg, names, was, now, pureWas, pureNow) && mid.Keys <= now.Keys
  {
    hide Added, Reaches, NeedsPure, Sendable;
    AddedMore(From(JitGraph(reg), f), FromAny(reg, names), reg.jit, was, mid, now);
    AddedMore(PureFrom(reg, f), PureFromAny(reg, names), Sendable(reg), pureWas, pureMid, pureNow);
  }

  /** A walk from one of the names fails: a function it needs is missing or unfit, or too long a path starts there. */
  ghost predicate WalkFault(reg: Registry, names: seq<string>, e: Error) {
    exists f :: f in names && f in reg.jit && JitFailure(reg, f, f, e)
  }

  /** Why a method cannot be sent: nothing under its result hash, or a walk that fails. */
  ghost predicate MethodFault(
    reg: Registry, families: string -> seq<string>, paramsHash: string, returnHash: string, e: Error)
  {
    match e
    case NothingUnderHash(hash) => hash == returnHash != EMPTY_HASH && forall f :: f in families(returnHash) ==>
      f !in reg.jit
    case _ => WalkFault(reg, Wanted(families, paramsHash, returnHash), e)
  }

  lemma FaultOfMore(reg: Registry, names: seq<string>, all: seq<string>, e: Error)
    requires WalkFault(reg, names, e) && forall f :: f in names ==> f in all
    ensures WalkFault(reg, all, e) && !e.NothingUnderHash?
  {
    hide NeedsPure, Reaches, Deep, UsesPure;
  }

  /** With fewer functions of each kind than the stack may hold, no method fails for its depth. */
  lemma SmallRegistriesAreSent(
    reg: Registry, families: string -> seq<string>, paramsHash: string, returnHash: string, e: Error)
    requires |reg.jit| < 50 && |reg.pure| < 50
    requires MethodFault(reg, families, paramsHash, returnHash, e)
    ensures !e.JitTooDeep? && !e.PureTooDeep?
  {
    hide NeedsPure, Reaches, Deep, UsesPure;
    if !e.NothingUnderHash? {
      var f :| f in Wanted(families, paramsHash, returnHash) && f in reg.jit && JitFailure(reg, f, f, e);
      SmallRegistryIsNotDeep(JitGraph(reg), reg.jit, f);
      CardinalityGrows(Sendable(reg).Keys, reg.pure.Keys);
      if e.PureTooDeep? {
        var j, p :| UsesPure(reg, f, j, p) && Deep(PureGraph(reg), Sendable(reg), p);
        SmallRegistryIsNotDeep(PureGraph(reg), Sendable(reg), p);
      }
    }
  }

  lemma CompleteMore(
    reg: Registry, names: seq<string>, f: string, was: map<string, JitFn>, mid: map<string, JitFn>,
    now: map<string, JitFn>, pureWas: map<string, PureFn>, pureMid: map<string, PureFn>, pureNow: map<string, PureFn>)
    requires Complete(reg, names, was, mid, pureWas, pureMid) && Collected(reg, mid, now, pureMid, pureNow) && f in now
    requires mid.Keys <= now.Keys
    ensures Complete(reg, names + [f], was, now, pureWas, pureNow)
  {
    hide Collected;
    CollectedMore(reg, was, mid, now, pureWas, pureMid, pureNow);
  }

  lemma CompleteSkip(
    reg: Registry, names: seq<string>, f: string, was: map<string, JitFn>, now: map<string, JitFn>,
    pureWas: map<string, PureFn>, pureNow: map<string, PureFn>)
    requires Complete(reg, names, was, now, pureWas, pureNow) && f !in reg.jit
    ensures Complete(reg, names + [f], was, now, pureWas, pureNow)
  {
    hide Collected;
  }

  lemma CompleteBoth(
    reg: Registry, a: seq<string>, b: seq<string>, was: map<string, JitFn>, mid: map<string, JitFn>,
    now: map<string, JitFn>, pureWas: map<string, PureFn>, pureMid: map<string, PureFn>, pureNow: map<string, PureFn>)
    requires Complete(reg, a, was, mid, pureWas, pureMid) && Complete(reg, b, mid, now, pureMid, pureNow)
    ensures Complete(reg, a + b, was, now, pureWas, pureNow)
  {
    CollectedMore(reg, was, mid, now, pureWas, pureMid, pureNow);
  }

  lemma GatheredMore(
    reg: Registry, a: seq<string>, b: seq<string>, was: map<string, JitFn>, mid: map<string, JitFn>,
    now: map<string, JitFn>, pureWas: map<string, PureFn>, pureMid: map<string, PureFn>, pureNow: map<string, PureFn>)
    requires Gathered(reg, a, was, mid, pureWas, pureMid)
    requires (mid == now && pureMid == pureNow) || Gathered(reg, b, mid, now, pureMid, pureNow)
    ensures Gathered(reg, a + b, was, now, pureWas, pureNow)
  {
    hide Reaches, NeedsPure, Sendable;
    assert FromAny(reg, a) <= FromAny(reg, a + b) && FromAny(reg, b) <= FromAny(reg, a + b);
    assert PureFromAny(reg, a) <= PureFromAny(reg, a + b) && PureFromAny(reg, b) <= PureFromAny(reg, a + b);
  }

  // ---------- The tables hold exactly what is needed ----------

  /** Tables that already hold everything their entries need. */
  ghost predicate SelfContained(reg: Registry, deps: map<string, JitFn>, pure: map<string, PureFn>) {
    Closed(JitGraph(reg), deps) && Closed(PureGraph(reg), pure) && forall k :: k in deps ==> HoldsPure(reg, k, pure)
  }

  /** From self-contained tables, however cyclic the graphs, a walk that returns normally leaves self-contained
      tables with exactly the compiled functions its roots reach and exactly the non-built-in pure functions
      those need. */
  lemma ExactlyWhatIsNeeded(
    reg: Registry, names: seq<string>, was: map<string, JitFn>, now: map<string, JitFn>, pureWas: map<string, PureFn>,
    pureNow: map<string, PureFn>)
    requires SelfContained(reg, was, pureWas)
    requires Gathered(reg, names, was, now, pureWas, pureNow) && Complete(reg, names, was, now, pureWas, pureNow)
    ensures SelfContained(reg, now, pureNow)
    ensures forall k :: k in now <==> k in was || k in FromAny(reg, names)
    ensures forall p :: p in pureNow <==> p in pureWas || (p in PureFromAny(reg, names) && !IsBuiltin(p))
  {
    hide Reaches, NeedsPure, IsBuiltin, ParseDep, PureSuccessors;
    NowSelfContained(reg, was, now, pureWas, pureNow);
    forall k | k in FromAny(reg, names) ensures k in now {
      var f :| f in names && f in reg.jit && Reaches(JitGraph(reg), f, k);
      ClosedHolds(JitGraph(reg), now, f, k);
    }
    forall p | p in PureFromAny(reg, names) && !IsBuiltin(p) ensures p in pureNow {
      var f :| f in names && f in reg.jit && NeedsPure(reg, f, p);
      NeededIsHeld(reg, now, pureNow, f, p);
    }
  }

  lemma NowSelfContained(
    reg: Registry, was: map<string, JitFn>, now: map<string, JitFn>, pureWas: map<string, PureFn>,
    pureNow: map<string, PureFn>)
    requires SelfContained(reg, was, pureWas) && Collected(reg, was, now, pureWas, pureNow)
    ensures SelfContained(reg, now, pureNow)
  {
    hide IsBuiltin, PureSuccessors;
    forall k, s | k in now && s in JitGraph(reg)(k) ensures s in now {
      if k in was { assert s in was; }
    }
    forall k, s | k in pureNow && s in PureGraph(reg)(k) ensures s in pureNow {
      if k in pureWas { assert s in pureWas; }
    }
  }

  lemma NeededIsHeld(reg: Registry, deps: map<string, JitFn>, pure: map<string, PureFn>, f: string, p: string)
    requires SelfContained(reg, deps, pure) && f in deps && NeedsPure(reg, f, p) && !IsBuiltin(p)
    ensures p in pure
  {
    hide Reaches, ParseDep, IsBuiltin;
    var j, root :| UsesPure(reg, f, j, root) && Reaches(PureGraph(reg), root, p);
    ClosedHolds(JitGraph(reg), deps, f, j);
    assert HoldsPure(reg, j, pure);
    if IsBuiltin(root) {
      BuiltinLeadsNowhere(reg, root, p);
    } else {
      ClosedHolds(PureGraph(reg), pure, root, p);
    }
  }

  lemma BuiltinLeadsNowhere(reg: Registry, root: string, p: string)
    requires IsBuiltin(root) && Reaches(PureGraph(reg), root, p)
    ensures p == root
  {
    var path :| Leads(PureGraph(reg), path, root, p);
    PathParts(PureGraph(reg), path);
  }

  /** Both tables settled, and every function added has the pure functions it names. */
  ghost predicate Collected(
    reg: Registry, was: map<string, JitFn>, now: map<string, JitFn>, pureWas: map<string, PureFn>,
    pureNow: map<string, PureFn>)
  {
    && was.Keys <= now.Keys && pureWas.Keys <= pureNow.Keys
    && Settled(JitGraph(reg), was, now) && Settled(PureGraph(reg), pureWas, pureNow)
    && forall k :: k in now && k !in was ==> HoldsPure(reg, k, pureNow)
  }

  ghost predicate HoldsPure(reg: Registry, k: string, pureNow: map<string, PureFn>) {
    k in reg.jit ==> forall p :: p in reg.jit[k].pureFnDependencies ==> IsBuiltin(p) || p in pureNow
  }

  /** A failed walk at h, begun at `root`: a function h needs is missing or unfit, or one of the two graphs is too
      deep. */
  ghost predicate JitFailure(reg: Registry, root: string, h: string, e: Error) {
    match e
    case JitTooDeep(_) => Deep(JitGraph(reg), reg.jit, root)
    case PureTooDeep(_) => exists j, p :: UsesPure(reg, h, j, p) && Deep(PureGraph(reg), Sendable(reg), p)
    case JitMissing(name) => name !in reg.jit && Reaches(JitGraph(reg), h, name)
    case _ => PureFault(reg, e) && NeedsPure(reg, h, e.name)
  }

  lemma NothingCollected(reg: Registry, h: string, table: map<string, JitFn>, pure: map<string, PureFn>)
    ensures Added(From(JitGraph(reg), h), reg.jit, table, table) && Added(PureFrom(reg, h), Sendable(reg), pure, pure)
    ensures Collected(reg, table, table, pure, pure) && h in From(JitGraph(reg), h)
  {
    ReachesItself(JitGraph(reg), h);
  }

  lemma JitStackIsFull(reg: Registry, stack: seq<string>, h: string, table: map<string, JitFn>)
    requires Stack(JitGraph(reg), stack, table, reg.jit) && Calls(JitGraph(reg), stack, h) && |stack| == MAX_STACK_DEPTH
    ensures JitFailure(reg, Root(stack, h), h, JitTooDeep(h))
  {
    hide Stack, Calls, Root, Deep;
    FullStackIsDeep(JitGraph(reg), stack, h, table, reg.jit);
  }

  lemma JitIsMissing(reg: Registry, root: string, h: string)
    requires h !in reg.jit
    ensures JitFailure(reg, root, h, JitMissing(h))
  {
    ReachesItself(JitGraph(reg), h);
  }

  lemma NeedsThrough(reg: Registry, h: string, dep: string, name: string)
    requires h in reg.jit && dep in reg.jit[h].rtDependencies && NeedsPure(reg, dep, name)
    ensures NeedsPure(reg, h, name)
  {
    var j, p :| UsesPure(reg, dep, j, p) && Reaches(PureGraph(reg), p, name);
    ReachesThrough(JitGraph(reg), h, dep, j);
    assert UsesPure(reg, h, j, p);
  }

  /** What a dependency's walk adds counts as added for the function that depends on it. */
  lemma SuccessorAdds(
    reg: Registry, h: string, dep: string, was: map<string, JitFn>, mid: map<string, JitFn>, now: map<string, JitFn>,
    pureWas: map<string, PureFn>, pureMid: map<string, PureFn>, pureNow: map<string, PureFn>)
    requires h in reg.jit && dep in reg.jit[h].rtDependencies
    requires Added(From(JitGraph(reg), h), reg.jit, was, mid) && Added(From(JitGraph(reg), dep), reg.jit, mid, now)
    requires Added(PureFrom(reg, h), Sendable(reg), pureWas, pureMid)
    requires Added(PureFrom(reg, dep), Sendable(reg), pureMid, pureNow)
    ensures Added(From(JitGraph(reg), h), reg.jit, was, now) && Added(PureFrom(reg, h), Sendable(reg), pureWas, pureNow)
    ensures mid.Keys <= now.Keys && pureMid.Keys <= pureNow.Keys
  {
    hide Added, From, NeedsPure;
    FromSuccessor(JitGraph(reg), h, dep);
    forall name | name in PureFrom(reg, dep) ensures name in PureFrom(reg, h) {
      NeedsThrough(reg, h, dep, name);
    }
    AddedMore(From(JitGraph(reg), dep), From(JitGraph(reg), h), reg.jit, was, mid, now);
    AddedMore(PureFrom(reg, dep), PureFrom(reg, h), Sendable(reg), pureWas, pureMid, pureNow);
  }

  lemma SuccessorFails(reg: Registry, root: string, h: string, dep: string, e: Error)
    requires h in reg.jit && dep in reg.jit[h].rtDependencies && JitFailure(reg, root, dep, e)
    ensures JitFailure(reg, root, h, e)
  {
    hide NeedsPure, PureFault, Reaches, Deep;
    match e
    case JitTooDeep(_) =>
    case PureTooDeep(_) =>
      var j, p :| UsesPure(reg, dep, j, p) && Deep(PureGraph(reg), Sendable(reg), p);
      ReachesThrough(JitGraph(reg), h, dep, j);
      assert UsesPure(reg, h, j, p);
    case JitMissing(name) => ReachesThrough(JitGraph(reg), h, dep, name);
    case _ => NeedsThrough(reg, h, dep, e.name);
  }

  lemma CollectedMore(
    reg: Registry, was: map<string, JitFn>, mid: map<string, JitFn>, now: map<string, JitFn>,
    pureWas: map<string, PureFn>, pureMid: map<string, PureFn>, pureNow: map<string, PureFn>)
    requires Collected(reg, was, mid, pureWas, pureMid) && Collected(reg, mid, now, pureMid, pureNow)
    ensures Collected(reg, was, now, pureWas, pureNow)
  {
    hide Settled, IsBuiltin;
    SettledMore(JitGraph(reg), was, mid, now);
    SettledMore(PureGraph(reg), pureWas, pureMid, pureNow);
  }

  lemma CollectedPure(
    reg: Registry, was: map<string, JitFn>, now: map<string, JitFn>, pureWas: map<string, PureFn>,
    pureMid: map<string, PureFn>, pureNow: map<string, PureFn>)
    requires Collected(reg, was, now, pureWas, pureMid) && pureMid.Keys <= pureNow.Keys
    requires Settled(PureGraph(reg), pureMid, pureNow)
    ensures Collected(reg, was, now, pureWas, pureNow)
  {
    hide Settled, IsBuiltin;
    SettledMore(PureGraph(reg), pureWas, pureMid, pureNow);
  }

  lemma CollectedNode(
    reg: Registry, h: string, was: map<string, JitFn>, now: map<string, JitFn>, pureWas: map<string, PureFn>,
    pureNow: map<string, PureFn>)
    requires h in reg.jit && Collected(reg, was[h := reg.jit[h]], now, pureWas, pureNow)
    requires forall s :: s in reg.jit[h].rtDependencies ==> s in now
    requires HoldsPure(reg, h, pureNow)
    ensures h in now && Collected(reg, was, now, pureWas, pureNow)
  {
    hide Settled, IsBuiltin, HoldsPure;
    assert was[h := reg.jit[h]].Keys == was.Keys + {h};
    SettledNode(JitGraph(reg), was, h, reg.jit[h], now);
  }

  lemma NamedIsNeeded(reg: Registry, h: string, p: string)
    requires h in reg.jit && p in reg.jit[h].pureFnDependencies
    ensures From(PureGraph(reg), p) <= PureFrom(reg, h)
  {
    ReachesItself(JitGraph(reg), h);
    assert UsesPure(reg, h, h, p);
  }

  lemma PureFails(reg: Registry, h: string, p: string, e: Error)
    requires h in reg.jit && p in reg.jit[h].pureFnDependencies
    requires PureFailure(reg, p, From(PureGraph(reg), p), e)
    ensures forall root :: JitFailure(reg, root, h, e)
  {
    hide NeedsPure, Reaches, Deep;
    NamedIsNeeded(reg, h, p);
    NamedIsUsed(reg, h, p);
  }

  lemma NamedIsUsed(reg: Registry, h: string, p: string)
    requires h in reg.jit && p in reg.jit[h].pureFnDependencies
    ensures UsesPure(reg, h, h, p)
  {
    ReachesItself(JitGraph(reg), h);
  }

  lemma NothingAdded<V(!new)>(from: iset<string>, registry: map<string, V>, g: Graph, table: map<string, V>)
    ensures Added(from, registry, table, table) && Settled(g, table, table)
  {
  }

  lemma FromItself(g: Graph, a: string)
    ensures a in From(g, a)
  {
    ReachesItself(g, a);
  }
}
