/** The metadata a client asks for: the methods named, the middleFns they depend on, and what those need. */
module ClientRoutes {
  import opened Basics
  import opened Graphs
  import opened RemoteMethods

  /** A registered route or middleFn. A private one neither takes nor returns data. */
  datatype Method = Method(isPrivate: bool, middleFnIds: seq<string>, paramsJitHash: string, returnJitHash: string)

  const MION_ROUTES: set<string> :=
    {"mion@methodsMetadataById", "mion@methodsMetadata", "mion@platformError", "mion@notFound", "@thrownErrors"}

  datatype MetadataEnv = MetadataEnv(executables: map<string, Method>, registry: Registry,
    families: string -> seq<string>)

  // ---------- What the answer should hold ----------

  /** The methods a client may see. */
  function Public(env: MetadataEnv): map<string, Method> {
    map id | id in env.executables && id !in MION_ROUTES && !env.executables[id].isPrivate :: env.executables[id]
  }

  function Requires(env: MetadataEnv): Graph {
    id => if id in Public(env) then Public(env)[id].middleFnIds else []
  }

  predicate IsMissing(env: MetadataEnv, id: string) {
    id !in MION_ROUTES && id !in env.executables
  }

  /** Listed, not for clients, or reported as missing. */
  predicate Accounted(env: MetadataEnv, id: string, methods: map<string, Method>, errorData: set<string>) {
    || id in methods || id in MION_ROUTES
    || (id in env.executables && env.executables[id].isPrivate)
    || (id !in env.executables && id in errorData)
  }

  ghost predicate AllAccounted(
    env: MetadataEnv, ids: seq<string>, methods: map<string, Method>, errorData: set<string>)
  {
    forall id :: id in ids ==> Accounted(env, id, methods, errorData)
  }

  function WantedBy(env: MetadataEnv, m: Method): seq<string> {
    Wanted(env.families, m.paramsJitHash, m.returnJitHash)
  }

  ghost predicate AllHeld(env: MetadataEnv, names: seq<string>, deps: map<string, JitFn>) {
    forall f :: f in names && f in env.registry.jit ==> f in deps
  }

  /** A listed method is fulfilled: its middleFns are accounted for and its compiled functions are sent. */
  ghost predicate Fulfilled(
    env: MetadataEnv, m: Method, methods: map<string, Method>, errorData: set<string>, deps: map<string, JitFn>)
  {
    AllAccounted(env, m.middleFnIds, methods, errorData) && AllHeld(env, WantedBy(env, m), deps)
  }

  /** Only missing ids among `from` were reported. */
  ghost predicate Reports(env: MetadataEnv, from: iset<string>, was: set<string>, now: set<string>) {
    was <= now && forall id :: id in now && id !in was ==> id in from && IsMissing(env, id)
  }

  /** The methods listed since `was` are fulfilled. */
  ghost predicate AllFulfilled(
    env: MetadataEnv, was: map<string, Method>, methods: map<string, Method>, errorData: set<string>,
    deps: map<string, JitFn>)
  {
    forall id :: id in methods && id !in was ==> Fulfilled(env, methods[id], methods, errorData, deps)
  }

  ghost predicate Larger(
    methods: map<string, Method>, errorData: set<string>, deps: map<string, JitFn>, methodsNow: map<string, Method>,
    errorDataNow: set<string>, depsNow: map<string, JitFn>)
  {
    methods.Keys <= methodsNow.Keys && errorData <= errorDataNow && deps.Keys <= depsNow.Keys
  }

  lemma AccountedMore(
    env: MetadataEnv, ids: seq<string>, methods: map<string, Method>, errorData: set<string>,
    deps: map<string, JitFn>, methodsNow: map<string, Method>, errorDataNow: set<string>, depsNow: map<string, JitFn>)
    requires AllAccounted(env, ids, methods, errorData)
    requires Larger(methods, errorData, deps, methodsNow, errorDataNow, depsNow)
    ensures AllAccounted(env, ids, methodsNow, errorDataNow)
  {
    hide Public;
  }

  /** Fulfilled stays fulfilled as the answer grows. */
  lemma FulfilledMore(
    env: MetadataEnv, was: map<string, Method>, methods: map<string, Method>, errorData: set<string>,
    deps: map<string, JitFn>, methodsNow: map<string, Method>, errorDataNow: set<string>, depsNow: map<string, JitFn>)
    requires AllFulfilled(env, was, methods, errorData, deps)
    requires AllFulfilled(env, methods, methodsNow, errorDataNow, depsNow)
    requires Larger(methods, errorData, deps, methodsNow, errorDataNow, depsNow)
    requires forall id :: id in methods ==> methodsNow[id] == methods[id]
    ensures AllFulfilled(env, was, methodsNow, errorDataNow, depsNow)
  {
    hide AllAccounted, WantedBy;
    forall id | id in methodsNow && id !in was
      ensures Fulfilled(env, methodsNow[id], methodsNow, errorDataNow, depsNow) {
      if id in methods {
        assert Fulfilled(env, methods[id], methods, errorData, deps);
        AccountedMore(env, methods[id].middleFnIds, methods, errorData, deps, methodsNow, errorDataNow, depsNow);
      }
    }
  }

  /** A walk's state: what was added came from `from`, and everything added is fulfilled. */
  ghost predicate Walked(
    env: MetadataEnv, from: iset<string>, was: map<string, Method>, methods: map<string, Method>,
    wasErrors: set<string>, errorData: set<string>)
  {
    Added(from, Public(env), was, methods) && Reports(env, from, wasErrors, errorData)
  }

  lemma WalkedMore(
    env: MetadataEnv, some: iset<string>, from: iset<string>, was: map<string, Method>, mid: map<string, Method>,
    methods: map<string, Method>, wasErrors: set<string>, midErrors: set<string>, errorData: set<string>)
    requires some <= from && Walked(env, from, was, mid, wasErrors, midErrors)
    requires Walked(env, some, mid, methods, midErrors, errorData)
    ensures Walked(env, from, was, methods, wasErrors, errorData)
    ensures mid.Keys <= methods.Keys && midErrors <= errorData && forall id :: id in mid ==> methods[id] == mid[id]
  {
    hide Public, IsMissing;
  }

  lemma NothingWalked(
    env: MetadataEnv, from: iset<string>, methods: map<string, Method>, errorData: set<string>,
    deps: map<string, JitFn>)
    ensures Walked(env, from, methods, methods, errorData, errorData)
    ensures AllFulfilled(env, methods, methods, errorData, deps)
  {
  }

  /** Some public method among `from` cannot be sent, for this reason. */
  ghost predicate Faulty(env: MetadataEnv, from: iset<string>, e: Error) {
    exists id :: id in from && id in Public(env) && MethodFaulty(env, Public(env)[id], e)
  }

  ghost predicate MethodFaulty(env: MetadataEnv, m: Method, e: Error) {
    MethodFault(env.registry, env.families, m.paramsJitHash, m.returnJitHash, e)
  }

  lemma FaultyToo(env: MetadataEnv, some: iset<string>, from: iset<string>, e: Error)
    requires some <= from && Faulty(env, some, e)
    ensures Faulty(env, from, e)
  {
    hide MethodFaulty, Public;
  }

  lemma OwnFault(env: MetadataEnv, id: string, e: Error)
    requires id in Public(env) && MethodFaulty(env, Public(env)[id], e)
    ensures Faulty(env, From(Requires(env), id), e)
  {
    hide MethodFaulty, Public;
    ReachesItself(Requires(env), id);
  }

  /** With fewer than 50 functions of each kind no request fails for their depth. */
  lemma SmallRegistriesAreAnswered(env: MetadataEnv, from: iset<string>, e: Error)
    requires |env.registry.jit| < 50 && |env.registry.pure| < 50
    requires Faulty(env, from, e)
    ensures !e.JitTooDeep? && !e.PureTooDeep?
  {
    hide MethodFault, Public;
    var id :| id in from && id in Public(env) && MethodFaulty(env, Public(env)[id], e);
    var m := Public(env)[id];
    SmallRegistriesAreSent(env.registry, env.families, m.paramsJitHash, m.returnJitHash, e);
  }

  // ---------- Nothing is sent that nobody needs ----------

  ghost predicate FnOfSome(env: MetadataEnv, methods: map<string, Method>, k: string) {
    exists id :: id in methods && k in FromAny(env.registry, WantedBy(env, methods[id]))
  }

  ghost predicate PureFnOfSome(env: MetadataEnv, methods: map<string, Method>, p: string) {
    !IsBuiltin(p) && exists id :: id in methods && p in PureFromAny(env.registry, WantedBy(env, methods[id]))
  }

  /** Every function in the tables is one that a listed method needs, as it is registered. */
  ghost predicate OnlyNeeded(
    env: MetadataEnv, methods: map<string, Method>, deps: map<string, JitFn>, pure: map<string, PureFn>)
  {
    && (forall k :: k in deps ==> FnOfSome(env, methods, k))
    && (forall p :: p in pure ==> PureFnOfSome(env, methods, p))
    && AreAsRegistered(env, deps, pure)
  }

  /** The functions are the registered ones, and the pure ones have code. */
  ghost predicate AreAsRegistered(env: MetadataEnv, deps: map<string, JitFn>, pure: map<string, PureFn>) {
    && (forall k :: k in deps ==> k in env.registry.jit && deps[k] == env.registry.jit[k])
    && (forall p :: p in pure ==>
          p in env.registry.pure && pure[p] == env.registry.pure[p] && env.registry.pure[p].code != "")
  }

  lemma OnlyNeededMore(
    env: MetadataEnv, few: map<string, Method>, many: map<string, Method>, deps: map<string, JitFn>,
    pure: map<string, PureFn>)
    requires OnlyNeeded(env, few, deps, pure) && forall id :: id in few ==> id in many && many[id] == few[id]
    ensures OnlyNeeded(env, many, deps, pure)
  {
    hide FromAny, PureFromAny, WantedBy, IsBuiltin;
    forall k | k in deps ensures FnOfSome(env, many, k) {
      assert FnOfSome(env, few, k);
    }
    forall p | p in pure ensures PureFnOfSome(env, many, p) {
      assert PureFnOfSome(env, few, p);
    }
  }

  /** What a listed method's own walk adds is needed by it. */
  lemma GatheredIsNeeded(
    env: MetadataEnv, methods: map<string, Method>, id: string, was: map<string, JitFn>, now: map<string, JitFn>,
    pureWas: map<string, PureFn>, pureNow: map<string, PureFn>)
    requires OnlyNeeded(env, methods, was, pureWas) && id in methods
    requires Gathered(env.registry, WantedBy(env, methods[id]), was, now, pureWas, pureNow)
    ensures OnlyNeeded(env, methods, now, pureNow)
  {
    hide FromAny, PureFromAny, WantedBy, IsBuiltin;
  }

  /** In self-contained tables that hold what every listed method asks for, the functions are exactly those needed. */
  lemma ExactlyTheFunctionsNeeded(
    env: MetadataEnv, methods: map<string, Method>, deps: map<string, JitFn>, pure: map<string, PureFn>)
    requires SelfContained(env.registry, deps, pure) && OnlyNeeded(env, methods, deps, pure)
    requires forall id :: id in methods ==> AllHeld(env, WantedBy(env, methods[id]), deps)
    ensures forall k :: k in deps <==> FnOfSome(env, methods, k)
    ensures forall p :: p in pure <==> PureFnOfSome(env, methods, p)
  {
    hide SelfContained, WantedBy, FnOfSome, PureFnOfSome, AllHeld;
    forall k | FnOfSome(env, methods, k) ensures k in deps { NeededFnIsSent(env, methods, deps, pure, k); }
    forall p | PureFnOfSome(env, methods, p) ensures p in pure { NeededPureFnIsSent(env, methods, deps, pure, p); }
  }

  lemma NeededFnIsSent(
    env: MetadataEnv, methods: map<string, Method>, deps: map<string, JitFn>, pure: map<string, PureFn>, k: string)
    requires SelfContained(env.registry, deps, pure) && FnOfSome(env, methods, k)
    requires forall id :: id in methods ==> AllHeld(env, WantedBy(env, methods[id]), deps)
    ensures k in deps
  {
    hide SelfContained, WantedBy, Reaches;
    var id :| id in methods && k in FromAny(env.registry, WantedBy(env, methods[id]));
    var f :| f in WantedBy(env, methods[id]) && f in env.registry.jit && Reaches(JitGraph(env.registry), f, k);
    SelfContainedIsClosed(env, deps, pure);
    ClosedHolds(JitGraph(env.registry), deps, f, k);
  }

  lemma NeededPureFnIsSent(
    env: MetadataEnv, methods: map<string, Method>, deps: map<string, JitFn>, pure: map<string, PureFn>, p: string)
    requires SelfContained(env.registry, deps, pure) && PureFnOfSome(env, methods, p)
    requires forall id :: id in methods ==> AllHeld(env, WantedBy(env, methods[id]), deps)
    ensures p in pure
  {
    hide SelfContained, WantedBy, NeedsPure, IsBuiltin;
    var id :| id in methods && p in PureFromAny(env.registry, WantedBy(env, methods[id]));
    var f :| f in WantedBy(env, methods[id]) && f in env.registry.jit && NeedsPure(env.registry, f, p);
    NeededIsHeld(env.registry, deps, pure, f, p);
  }

  lemma SelfContainedIsClosed(env: MetadataEnv, deps: map<string, JitFn>, pure: map<string, PureFn>)
    requires SelfContained(env.registry, deps, pure)
    ensures Closed(JitGraph(env.registry), deps)
  {
  }

  class Answer {
    var methods: map<string, Method>
    var errorData: set<string>
    const tables: Dependencies

    constructor ()
      ensures methods == map[] && errorData == {} && fresh(tables) && tables.deps == map[] && tables.purFnDeps == map[]
    {
      methods, errorData := map[], {};
      tables := new Dependencies();
    }

    /** Lists a method, its middleFns and what they need. There is no depth limit: the listed methods stop it. */
    method AddRequiredRemoteMethodsToResponse(env: MetadataEnv, id: string) returns (err: Option<Error>)
      requires SelfContained(env.registry, tables.deps, tables.purFnDeps)
      requires OnlyNeeded(env, methods, tables.deps, tables.purFnDeps)
      modifies this`methods, this`errorData, tables
      ensures Walked(env, From(Requires(env), id), old(methods), methods, old(errorData), errorData)
      ensures old(tables.deps).Keys <= tables.deps.Keys
      ensures OnlyNeeded(env, methods, tables.deps, tables.purFnDeps)
      ensures err.None? ==>
                && SelfContained(env.registry, tables.deps, tables.purFnDeps)
                && AllFulfilled(env, old(methods), methods, errorData, tables.deps)
                && Accounted(env, id, methods, errorData)
      ensures err.Some? ==> Faulty(env, From(Requires(env), id), err.value)
      decreases Public(env).Keys - methods.Keys, 1
    {
      hide Walked, AllFulfilled, SelfContained, From, Wanted, Public, Requires, Faulty, OnlyNeeded;
      NothingWalked(env, From(Requires(env), id), methods, errorData, tables.deps);
      if id in methods { return None; }
      if id in MION_ROUTES { return None; }
      if id !in env.executables {
        MissingIsReported(env, id, methods, errorData, tables.deps);
        errorData := errorData + {id};
        return None;
      }
      if env.executables[id].isPrivate { return None; }
      ghost var was, wasErrors := methods, errorData;
      var m := env.executables[id];
      methods := methods[id := m];
      PublicIsListed(env, id, was, wasErrors);
      OnlyNeededMore(env, was, methods, tables.deps, tables.purFnDeps);
      NothingWalked(env, From(Requires(env), id), methods, errorData, tables.deps);
      assert Public(env).Keys - methods.Keys < Public(env).Keys - was.Keys by {
        assert id in Public(env).Keys - was.Keys && id !in Public(env).Keys - methods.Keys;
      }
      err := AddMiddleFns(env, id, m, was, wasErrors, methods);
      if err.Some? { return; }
      ghost var errors, depsWas, pureWas := errorData, tables.deps, tables.purFnDeps;
      err := tables.SerializeMethodDeps(env.registry, env.families, m.paramsJitHash, m.returnJitHash);
      DepsGrow(env, WantedBy(env, m), depsWas, tables.deps, pureWas, tables.purFnDeps);
      GatheredIsNeeded(env, methods, id, depsWas, tables.deps, pureWas, tables.purFnDeps);
      if err.Some? {
        OwnFault(env, id, err.value);
        return;
      }
      DepsSettle(env, WantedBy(env, m), depsWas, tables.deps, pureWas, tables.purFnDeps);
      ListedIsFulfilled(env, was, id, m, methods, errorData, depsWas, tables.deps);
    }

    /** The middleFns of one listed method. */
    method AddMiddleFns(
      env: MetadataEnv, id: string, m: Method, ghost was: map<string, Method>, ghost wasErrors: set<string>,
      ghost mid: map<string, Method>)
      returns (err: Option<Error>)
      requires SelfContained(env.registry, tables.deps, tables.purFnDeps)
      requires OnlyNeeded(env, methods, tables.deps, tables.purFnDeps)
      requires id in Public(env) && m == Public(env)[id] && id in methods && methods[id] == m && mid == methods
      requires Walked(env, From(Requires(env), id), was, methods, wasErrors, errorData)
      modifies this`methods, this`errorData, tables
      ensures Walked(env, From(Requires(env), id), was, methods, wasErrors, errorData)
      ensures old(tables.deps).Keys <= tables.deps.Keys
      ensures id in methods && methods[id] == m
      ensures OnlyNeeded(env, methods, tables.deps, tables.purFnDeps)
      ensures err.None? ==>
                && SelfContained(env.registry, tables.deps, tables.purFnDeps)
                && AllFulfilled(env, mid, methods, errorData, tables.deps)
                && AllAccounted(env, m.middleFnIds, methods, errorData)
      ensures err.Some? ==> Faulty(env, From(Requires(env), id), err.value)
      decreases Public(env).Keys - methods.Keys, 2
    {
      hide Walked, AllFulfilled, SelfContained, From, Accounted, Public, Requires, Faulty, OnlyNeeded;
      ghost var from := From(Requires(env), id);
      NothingWalked(env, from, methods, errorData, tables.deps);
      for i := 0 to |m.middleFnIds|
        invariant SelfContained(env.registry, tables.deps, tables.purFnDeps)
        invariant OnlyNeeded(env, methods, tables.deps, tables.purFnDeps)
        invariant Walked(env, from, was, methods, wasErrors, errorData)
        invariant old(tables.deps).Keys <= tables.deps.Keys && mid.Keys <= methods.Keys && id in methods
        invariant methods[id] == m
        invariant AllFulfilled(env, mid, methods, errorData, tables.deps)
        invariant AllAccounted(env, m.middleFnIds[..i], methods, errorData)
      {
        var next := m.middleFnIds[i];
        assert m.middleFnIds[..i + 1] == m.middleFnIds[..i] + [next];
        ghost var before, errorsBefore, depsBefore := methods, errorData, tables.deps;
        err := AddRequiredRemoteMethodsToResponse(env, next);
        RequiredIsReached(env, id, next);
        WalkedMore(env, From(Requires(env), next), from, was, before, methods, wasErrors, errorsBefore, errorData);
        if err.Some? {
          FaultyToo(env, From(Requires(env), next), from, err.value);
          return;
        }
        FulfilledMore(env, mid, before, errorsBefore, depsBefore, methods, errorData, tables.deps);
        AccountedMore(env, m.middleFnIds[..i], before, errorsBefore, depsBefore, methods, errorData, tables.deps);
      }
      assert m.middleFnIds[..|m.middleFnIds|] == m.middleFnIds;
      err := None;
    }
  }

  lemma MissingIsReported(
    env: MetadataEnv, id: string, methods: map<string, Method>, errorData: set<string>, deps: map<string, JitFn>)
    requires IsMissing(env, id)
    ensures Walked(env, From(Requires(env), id), methods, methods, errorData, errorData + {id})
    ensures AllFulfilled(env, methods, methods, errorData + {id}, deps)
  {
    ReachesItself(Requires(env), id);
  }

  lemma PublicIsListed(env: MetadataEnv, id: string, was: map<string, Method>, errorData: set<string>)
    requires id in env.executables && id !in MION_ROUTES && !env.executables[id].isPrivate && id !in was
    ensures id in Public(env) && Public(env)[id] == env.executables[id]
    ensures Walked(env, From(Requires(env), id), was, was[id := env.executables[id]], errorData, errorData)
  {
    ReachesItself(Requires(env), id);
  }

  lemma RequiredIsReached(env: MetadataEnv, id: string, next: string)
    requires id in Public(env) && next in Public(env)[id].middleFnIds
    ensures From(Requires(env), next) <= From(Requires(env), id)
  {
    FromSuccessor(Requires(env), id, next);
  }

  lemma DepsGrow(
    env: MetadataEnv, names: seq<string>, was: map<string, JitFn>, now: map<string, JitFn>,
    pureWas: map<string, PureFn>, pureNow: map<string, PureFn>)
    requires Gathered(env.registry, names, was, now, pureWas, pureNow)
    ensures was.Keys <= now.Keys
  {
  }

  lemma DepsSettle(
    env: MetadataEnv, names: seq<string>, was: map<string, JitFn>, now: map<string, JitFn>,
    pureWas: map<string, PureFn>, pureNow: map<string, PureFn>)
    requires SelfContained(env.registry, was, pureWas)
    requires Gathered(env.registry, names, was, now, pureWas, pureNow)
    requires Complete(env.registry, names, was, now, pureWas, pureNow)
    ensures SelfContained(env.registry, now, pureNow) && AllHeld(env, names, now)
  {
    hide SelfContained, Gathered, Collected;
    ExactlyWhatIsNeeded(env.registry, names, was, now, pureWas, pureNow);
  }

  lemma ListedIsFulfilled(
    env: MetadataEnv, was: map<string, Method>, id: string, m: Method, methods: map<string, Method>,
    errorData: set<string>, depsWas: map<string, JitFn>, deps: map<string, JitFn>)
    requires AllFulfilled(env, was[id := m], methods, errorData, depsWas) && depsWas.Keys <= deps.Keys
    requires id in methods && methods[id] == m
    requires AllAccounted(env, m.middleFnIds, methods, errorData) && AllHeld(env, WantedBy(env, m), deps)
    ensures AllFulfilled(env, was, methods, errorData, deps)
  {
    hide AllAccounted, WantedBy;
    forall k | k in methods && k !in was ensures Fulfilled(env, methods[k], methods, errorData, deps) {
      if k != id { assert Fulfilled(env, methods[k], methods, errorData, depsWas); }
    }
  }

  // ---------- The two client routes ----------

  datatype Answered = Listed(answer: Answer) | NotFound(errorData: set<string>) | Threw(error: Error)

  datatype Limits = Limits(configured: nat, allIds: seq<string>, total: nat)

  /** Every public id when all are asked for and there are not too many, otherwise the ids asked for. */
  function IdsToReturn(env: MetadataEnv, limits: Limits, ids: seq<string>, all: bool): seq<string> {
    var max := if limits.configured == 0 then 100 else limits.configured;
    if all && limits.total <= max then PublicIds(env, limits.allIds) else ids
  }

  function PublicIds(env: MetadataEnv, ids: seq<string>): seq<string> {
    if ids == [] then []
    else
      var last := ids[|ids| - 1];
      PublicIds(env, ids[..|ids| - 1]) + if last in Public(env) then [last] else []
  }

  ghost predicate ReachedFromSome(g: Graph, ids: seq<string>, k: string) {
    exists id :: id in ids && Reaches(g, id, k)
  }

  ghost function FromAnyOf(g: Graph, ids: seq<string>): iset<string> {
    iset k | ReachedFromSome(g, ids, k)
  }

  lemma MemberIsAmong(g: Graph, ids: seq<string>, id: string)
    requires id in ids
    ensures From(g, id) <= FromAnyOf(g, ids)
  {
    hide Reaches;
  }

  /** The answer to a metadata request, or the error that carries what was not found. */
  method MionGetRemoteMethodsDataById(
    env: MetadataEnv, limits: Limits, ids: seq<string>, all: bool) returns (r: Answered)
    ensures var wanted := IdsToReturn(env, limits, ids, all);
            match r
            case Listed(a) =>
              && ExactlyPublic(env, wanted, a.methods)
              && (forall id :: id in FromAnyOf(Requires(env), wanted) ==> !IsMissing(env, id))
              && SelfContained(env.registry, a.tables.deps, a.tables.purFnDeps)
              && (forall id :: id in a.methods ==> AllHeld(env, WantedBy(env, a.methods[id]), a.tables.deps))
              && (forall k :: k in a.tables.deps <==> FnOfSome(env, a.methods, k))
              && (forall p :: p in a.tables.purFnDeps <==> PureFnOfSome(env, a.methods, p))
              && AreAsRegistered(env, a.tables.deps, a.tables.purFnDeps)
              && (forall id :: id in a.methods ==> id in env.executables && a.methods[id] == env.executables[id])
            case NotFound(errorData) =>
              errorData != {} && forall id :: id in errorData <==>
                IsMissing(env, id) && id in FromAnyOf(Requires(env), wanted)
            case Threw(error) => Faulty(env, FromAnyOf(Requires(env), wanted), error)
  {
    hide Walked, AllFulfilled, SelfContained, From, FromAnyOf, Accounted, Public, Requires, IsMissing, ExactlyPublic,
      Faulty, AreAsRegistered, FnOfSome, PureFnOfSome, OnlyNeeded, AllAccounted, AllHeld, WantedBy, IdsToReturn;
    NothingIsNeeded(env);
    NothingAccounted(env);
    var wanted := IdsToReturn(env, limits, ids, all);
    var resp := new Answer();
    NothingContained(env);
    ghost var from := FromAnyOf(Requires(env), wanted);
    NothingWalked(env, from, map[], {}, map[]);
    for i := 0 to |wanted|
      invariant fresh(resp) && fresh(resp.tables)
      invariant SelfContained(env.registry, resp.tables.deps, resp.tables.purFnDeps)
      invariant OnlyNeeded(env, resp.methods, resp.tables.deps, resp.tables.purFnDeps)
      invariant Walked(env, from, map[], resp.methods, {}, resp.errorData)
      invariant AllFulfilled(env, map[], resp.methods, resp.errorData, resp.tables.deps)
      invariant AllAccounted(env, wanted[..i], resp.methods, resp.errorData)
    {
      assert wanted[..i + 1] == wanted[..i] + [wanted[i]];
      ghost var before, errorsBefore, depsBefore := resp.methods, resp.errorData, resp.tables.deps;
      var err := resp.AddRequiredRemoteMethodsToResponse(env, wanted[i]);
      MemberIsAmong(Requires(env), wanted, wanted[i]);
      if err.Some? {
        FaultyToo(env, From(Requires(env), wanted[i]), from, err.value);
        return Threw(err.value);
      }
      WalkedMore(env, From(Requires(env), wanted[i]), from, map[], before, resp.methods, {}, errorsBefore,
        resp.errorData);
      FulfilledMore(env, map[], before, errorsBefore, depsBefore, resp.methods, resp.errorData, resp.tables.deps);
      AccountedMore(env, wanted[..i], before, errorsBefore, depsBefore, resp.methods, resp.errorData, resp.tables.deps);
      OneMoreAccounted(env, wanted[..i], wanted[i], resp.methods, resp.errorData);
    }
    assert wanted[..|wanted|] == wanted;
    AnswerIsExact(env, wanted, resp.methods, resp.errorData, resp.tables.deps);
    ExactlyTheFunctionsNeeded(env, resp.methods, resp.tables.deps, resp.tables.purFnDeps);
    NeededAreRegistered(env, resp.methods, resp.tables.deps, resp.tables.purFnDeps);
    WalkedAreRegistered(env, from, resp.methods, resp.errorData);
    if resp.errorData != {} { return NotFound(resp.errorData); }
    r := Listed(resp);
  }

  lemma NothingIsNeeded(env: MetadataEnv)
    ensures OnlyNeeded(env, map[], map[], map[])
  {
  }

  lemma NothingAccounted(env: MetadataEnv)
    ensures AllAccounted(env, [], map[], {})
  {
  }

  lemma OneMoreAccounted(
    env: MetadataEnv, ids: seq<string>, id: string, methods: map<string, Method>, errorData: set<string>)
    requires AllAccounted(env, ids, methods, errorData) && Accounted(env, id, methods, errorData)
    ensures AllAccounted(env, ids + [id], methods, errorData)
  {
    hide Accounted;
  }

  lemma NeededAreRegistered(
    env: MetadataEnv, methods: map<string, Method>, deps: map<string, JitFn>, pure: map<string, PureFn>)
    requires OnlyNeeded(env, methods, deps, pure)
    ensures AreAsRegistered(env, deps, pure)
  {
  }

  lemma WalkedAreRegistered(
    env: MetadataEnv, from: iset<string>, methods: map<string, Method>, errorData: set<string>)
    requires Walked(env, from, map[], methods, {}, errorData)
    ensures forall id :: id in methods ==> id in env.executables && methods[id] == env.executables[id]
  {
  }

  /** The listed methods are the public ones the wanted ids reach through middleFns. */
  ghost predicate ExactlyPublic(env: MetadataEnv, wanted: seq<string>, methods: map<string, Method>) {
    forall id :: id in methods <==> id in Public(env) && id in FromAnyOf(Requires(env), wanted)
  }

  lemma NothingContained(env: MetadataEnv)
    ensures SelfContained(env.registry, map[], map[])
  {
  }

  lemma SuccessorIsAccounted(
    env: MetadataEnv, a: string, b: string, methods: map<string, Method>, errorData: set<string>,
    deps: map<string, JitFn>)
    requires b in Requires(env)(a) && Accounted(env, a, methods, errorData)
    requires AllFulfilled(env, map[], methods, errorData, deps)
    requires forall id :: id in methods ==> id in Public(env) && methods[id] == Public(env)[id]
    ensures Accounted(env, b, methods, errorData)
  {
    assert a in Public(env) && a in methods;
    assert Fulfilled(env, methods[a], methods, errorData, deps);
  }

  lemma {:induction false} PathIsAccounted(
    env: MetadataEnv, p: seq<string>, methods: map<string, Method>, errorData: set<string>, deps: map<string, JitFn>)
    requires IsPath(Requires(env), p) && Accounted(env, p[0], methods, errorData)
    requires AllFulfilled(env, map[], methods, errorData, deps)
    requires forall id :: id in methods ==> id in Public(env) && methods[id] == Public(env)[id]
    ensures Accounted(env, p[|p| - 1], methods, errorData)
  {
    hide IsPath, Accounted, AllFulfilled, Public, Requires;
    PathParts(Requires(env), p);
    if |p| > 1 {
      SuccessorIsAccounted(env, p[0], p[1], methods, errorData, deps);
      PathIsAccounted(env, p[1..], methods, errorData, deps);
    }
  }

  /** A finished walk from nothing has listed exactly the public methods it reaches, and reported exactly the
      missing ones. */
  lemma AnswerIsExact(
    env: MetadataEnv, wanted: seq<string>, methods: map<string, Method>, errorData: set<string>,
    deps: map<string, JitFn>)
    requires Walked(env, FromAnyOf(Requires(env), wanted), map[], methods, {}, errorData)
    requires AllFulfilled(env, map[], methods, errorData, deps) && AllAccounted(env, wanted, methods, errorData)
    ensures ExactlyPublic(env, wanted, methods)
    ensures forall id :: id in errorData <==> IsMissing(env, id) && id in FromAnyOf(Requires(env), wanted)
    ensures forall id :: id in methods ==> AllHeld(env, WantedBy(env, methods[id]), deps)
  {
    hide AllFulfilled, AllHeld, WantedBy;
    forall id | id in FromAnyOf(Requires(env), wanted) ensures Accounted(env, id, methods, errorData) {
      var root :| root in wanted && Reaches(Requires(env), root, id);
      var p :| Leads(Requires(env), p, root, id);
      PathIsAccounted(env, p, methods, errorData, deps);
    }
    forall id | id in methods ensures AllHeld(env, WantedBy(env, methods[id]), deps) {
      HeldIfFulfilled(env, id, methods, errorData, deps);
    }
  }

  lemma HeldIfFulfilled(
    env: MetadataEnv, id: string, methods: map<string, Method>, errorData: set<string>, deps: map<string, JitFn>)
    requires AllFulfilled(env, map[], methods, errorData, deps) && id in methods
    ensures AllHeld(env, WantedBy(env, methods[id]), deps)
  {
    assert Fulfilled(env, methods[id], methods, errorData, deps);
  }
}
