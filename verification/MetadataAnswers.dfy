/** What a metadata request is answered, said of the registered methods and functions alone. */
module MetadataAnswers {
  import opened Basics
  import opened Graphs
  import opened RemoteMethods
  import opened ClientRoutes

  // ---------- Methods ----------

  /** A name of the framework's own, never listed and never missing. */
  ghost predicate IsInternal(id: string) {
    || id == "mion@methodsMetadataById" || id == "mion@methodsMetadata" || id == "mion@platformError"
    || id == "mion@notFound" || id == "@thrownErrors"
  }

  ghost predicate ClientMaySee(env: MetadataEnv, id: string) {
    id in env.executables && !IsInternal(id) && !env.executables[id].isPrivate
  }

  /** A method a client may see names another among its middleFns. */
  ghost predicate Needs(env: MetadataEnv, id: string, next: string) {
    ClientMaySee(env, id) && next in env.executables[id].middleFnIds
  }

  ghost predicate IsTrail(env: MetadataEnv, p: seq<string>) {
    forall i :: 0 <= i < |p| - 1 ==> Needs(env, p[i], p[i + 1])
  }

  ghost predicate IsNeeded(env: MetadataEnv, wanted: seq<string>, id: string) {
    exists p :: p != [] && IsTrail(env, p) && p[0] in wanted && p[|p| - 1] == id
  }

  lemma MaySeeIs(env: MetadataEnv, id: string)
    ensures id in Public(env) <==> ClientMaySee(env, id)
    ensures IsMissing(env, id) <==> id !in env.executables && !IsInternal(id)
  {
  }

  lemma NeedsIs(env: MetadataEnv, id: string, next: string)
    ensures Needs(env, id, next) <==> next in Requires(env)(id)
  {
    MaySeeIs(env, id);
  }

  lemma TrailIsPath(env: MetadataEnv, p: seq<string>)
    requires p != []
    ensures IsTrail(env, p) <==> IsPath(Requires(env), p)
  {
    hide Needs, Requires;
    forall i | 0 <= i < |p| - 1 ensures Needs(env, p[i], p[i + 1]) <==> p[i + 1] in Requires(env)(p[i]) {
      NeedsIs(env, p[i], p[i + 1]);
    }
  }

  lemma NeededIsReached(env: MetadataEnv, wanted: seq<string>, id: string)
    ensures IsNeeded(env, wanted, id) <==> id in FromAnyOf(Requires(env), wanted)
  {
    hide IsTrail, IsPath, Requires;
    if p :| p != [] && IsTrail(env, p) && p[0] in wanted && p[|p| - 1] == id {
      TrailIsPath(env, p);
      assert Leads(Requires(env), p, p[0], id);
      assert Reaches(Requires(env), p[0], id);
    }
    if id in FromAnyOf(Requires(env), wanted) {
      var root :| root in wanted && Reaches(Requires(env), root, id);
      var p :| Leads(Requires(env), p, root, id);
      PathParts(Requires(env), p);
      TrailIsPath(env, p);
    }
  }

  /** An exact listing holds the methods a client may see that the wanted ids need, through middleFns, and no others. */
  lemma ListsExactly(env: MetadataEnv, wanted: seq<string>, methods: map<string, Method>)
    ensures ExactlyPublic(env, wanted, methods) <==>
              forall id :: id in methods <==> ClientMaySee(env, id) && IsNeeded(env, wanted, id)
  {
    hide IsNeeded, FromAnyOf, ClientMaySee, Public, IsMissing;
    forall id ensures id in Public(env) && id in FromAnyOf(Requires(env), wanted) <==>
                        ClientMaySee(env, id) && IsNeeded(env, wanted, id)
    {
      MaySeeIs(env, id);
      NeededIsReached(env, wanted, id);
    }
  }

  /** What is reported missing is needed, registered nowhere and none of the framework's own names. */
  lemma MissesExactly(env: MetadataEnv, wanted: seq<string>, id: string)
    ensures IsMissing(env, id) && id in FromAnyOf(Requires(env), wanted) <==>
              id !in env.executables && !IsInternal(id) && IsNeeded(env, wanted, id)
  {
    hide IsNeeded, FromAnyOf, ClientMaySee, Public, IsMissing, IsInternal;
    MaySeeIs(env, id);
    NeededIsReached(env, wanted, id);
  }

  /** All that a client may see is wanted when all is asked for and the router is not too large, by default not over a
      hundred; else what was asked for. */
  lemma {:induction false} WantsExactly(env: MetadataEnv, limits: Limits, ids: seq<string>, all: bool)
    ensures var wanted := IdsToReturn(env, limits, ids, all);
            if all && (if limits.configured == 0 then limits.total <= 100 else limits.total <= limits.configured)
            then forall id :: id in wanted <==> id in limits.allIds && ClientMaySee(env, id)
            else wanted == ids
  {
    PublicIdsAre(env, limits.allIds);
  }

  lemma {:induction false} PublicIdsAre(env: MetadataEnv, ids: seq<string>)
    ensures forall id :: id in PublicIds(env, ids) <==> id in ids && ClientMaySee(env, id)
  {
    hide ClientMaySee, Public;
    if ids != [] {
      var n := |ids| - 1;
      PublicIdsAre(env, ids[..n]);
      MaySeeIs(env, ids[n]);
      assert ids == ids[..n] + [ids[n]];
    }
  }

  // ---------- Functions ----------

  /** A compiled function registered under the method's params, or its result, hash. */
  ghost predicate IsOwnFn(env: MetadataEnv, m: Method, f: string) {
    && f in env.registry.jit
    && ((m.paramsJitHash != "" && f in env.families(m.paramsJitHash))
        || (m.returnJitHash != "" && f in env.families(m.returnJitHash)))
  }

  ghost predicate DependsOn(reg: Registry, name: string, next: string) {
    name in reg.jit && next in reg.jit[name].rtDependencies
  }

  ghost predicate IsFnTrail(reg: Registry, p: seq<string>) {
    forall i :: 0 <= i < |p| - 1 ==> DependsOn(reg, p[i], p[i + 1])
  }

  /** The method needs the compiled function: it is one of its own, or one that leads from one of its own. */
  ghost predicate NeedsFn(env: MetadataEnv, m: Method, k: string) {
    exists p :: p != [] && IsFnTrail(env.registry, p) && IsOwnFn(env, m, p[0]) && p[|p| - 1] == k
  }

  lemma FnTrailIsPath(reg: Registry, p: seq<string>)
    requires p != []
    ensures IsFnTrail(reg, p) <==> IsPath(JitGraph(reg), p)
  {
    forall i | 0 <= i < |p| - 1 ensures DependsOn(reg, p[i], p[i + 1]) <==> p[i + 1] in JitGraph(reg)(p[i]) { }
  }

  lemma OwnFnIs(env: MetadataEnv, m: Method, f: string)
    ensures IsOwnFn(env, m, f) <==> f in WantedBy(env, m) && f in env.registry.jit
  {
  }

  /** The compiled functions sent are those some listed method needs. */
  lemma SendsExactlyFns(env: MetadataEnv, methods: map<string, Method>, k: string)
    ensures FnOfSome(env, methods, k) <==> exists id :: id in methods && NeedsFn(env, methods[id], k)
  {
    hide NeedsFn, FromAny, WantedBy;
    forall id | id in methods
      ensures NeedsFn(env, methods[id], k) <==> k in FromAny(env.registry, WantedBy(env, methods[id]))
    {
      NeedsFnIs(env, methods[id], k);
    }
  }

  lemma NeedsFnIs(env: MetadataEnv, m: Method, k: string)
    ensures NeedsFn(env, m, k) <==> k in FromAny(env.registry, WantedBy(env, m))
  {
    hide IsFnTrail, IsPath, JitGraph, WantedBy, IsOwnFn;
    if p :| p != [] && IsFnTrail(env.registry, p) && IsOwnFn(env, m, p[0]) && p[|p| - 1] == k {
      FnTrailIsPath(env.registry, p);
      OwnFnIs(env, m, p[0]);
      assert Leads(JitGraph(env.registry), p, p[0], k);
      assert Reaches(JitGraph(env.registry), p[0], k);
    }
    if k in FromAny(env.registry, WantedBy(env, m)) {
      var f :| f in WantedBy(env, m) && f in env.registry.jit && Reaches(JitGraph(env.registry), f, k);
      var p :| Leads(JitGraph(env.registry), p, f, k);
      PathParts(JitGraph(env.registry), p);
      FnTrailIsPath(env.registry, p);
      OwnFnIs(env, m, f);
    }
  }

  // ---------- Pure functions ----------

  /** A pure function's name: its namespace and its hash with two colons in between, and nowhere else. */
  ghost predicate IsName(name: string, namespace: string, hash: string) {
    name == namespace + "::" + hash && !Colons(namespace + ":") && !Colons(hash)
  }

  ghost predicate Colons(s: string) {
    exists i :: ColonsAt(s, i)
  }

  ghost predicate ColonsAt(s: string, i: int) {
    0 <= i && i + 2 <= |s| && s[i..i + 2] == "::"
  }

  lemma ColonsAre(s: string)
    ensures Colons(s) <==> HasSeparator(s)
  {
    if i :| ColonsAt(s, i) {
      assert s[i..i + 2][0] == ':' && s[i..i + 2][1] == ':';
    }
    if i :| 0 <= i < |s| - 1 && s[i] == ':' && s[i + 1] == ':' {
      assert s[i..i + 2] == "::";
      assert ColonsAt(s, i);
    }
  }

  /** A name parses to a namespace and a hash exactly when it is their name. */
  lemma ParsesExactly(name: string, namespace: string, hash: string)
    ensures ParseDep(name) == Some((namespace, hash)) <==> IsName(name, namespace, hash)
  {
    ColonsAre(namespace + ":");
    ColonsAre(hash);
    if ParseDep(name) == Some((namespace, hash)) { SplitJoins(name); }
    if IsName(name, namespace, hash) { JoinSplits(namespace, hash); }
  }

  /** The built-in pure functions are those of the two namespaces every client has. */
  lemma BuiltInExactly(name: string)
    ensures IsBuiltin(name) <==>
              (exists hash :: IsName(name, "rt", hash)) || (exists hash :: IsName(name, "rtFormats", hash))
  {
    hide IsName, ParseDep;
    if ParseDep(name).Some? {
      ParsesExactly(name, ParseDep(name).value.0, ParseDep(name).value.1);
    }
    if hash :| IsName(name, "rt", hash) { ParsesExactly(name, "rt", hash); }
    if hash :| IsName(name, "rtFormats", hash) { ParsesExactly(name, "rtFormats", hash); }
  }

  /** One pure function, not built in, depends on another: by its hash, in its own namespace. */
  ghost predicate PureDependsOn(reg: Registry, name: string, next: string) {
    && name in reg.pure
    && exists namespace, hash :: IsName(name, namespace, hash) && namespace != "rt" && namespace != "rtFormats"
         && exists i :: 0 <= i < |reg.pure[name].pureFnDependencies|
              && next == namespace + "::" + reg.pure[name].pureFnDependencies[i]
  }

  lemma PureDependsOnIs(reg: Registry, name: string, next: string)
    ensures PureDependsOn(reg, name, next) <==> next in PureGraph(reg)(name)
  {
    hide IsName, ParseDep;
    forall namespace, hash ensures ParseDep(name) == Some((namespace, hash)) <==> IsName(name, namespace, hash) {
      ParsesExactly(name, namespace, hash);
    }
    if ParseDep(name).Some? && name in reg.pure {
      var namespace, hash := ParseDep(name).value.0, ParseDep(name).value.1;
      assert IsName(name, namespace, hash);
      var deps := reg.pure[name].pureFnDependencies;
      forall i | 0 <= i < |deps| ensures KeysIn(namespace, deps)[i] == namespace + "::" + deps[i] { }
    }
  }

  ghost predicate IsPureTrail(reg: Registry, p: seq<string>) {
    forall i :: 0 <= i < |p| - 1 ==> PureDependsOn(reg, p[i], p[i + 1])
  }

  lemma PureTrailIsPath(reg: Registry, p: seq<string>)
    requires p != []
    ensures IsPureTrail(reg, p) <==> IsPath(PureGraph(reg), p)
  {
    hide PureDependsOn, PureGraph;
    forall i | 0 <= i < |p| - 1 ensures PureDependsOn(reg, p[i], p[i + 1]) <==> p[i + 1] in PureGraph(reg)(p[i]) {
      PureDependsOnIs(reg, p[i], p[i + 1]);
    }
  }

  /** One name leads to another over pure functions that depend on each other. */
  ghost predicate PureLeadsTo(reg: Registry, from: string, name: string) {
    exists p :: p != [] && IsPureTrail(reg, p) && p[0] == from && p[|p| - 1] == name
  }

  lemma PureLeadsToIs(reg: Registry, from: string, name: string)
    ensures PureLeadsTo(reg, from, name) <==> Reaches(PureGraph(reg), from, name)
  {
    hide IsPureTrail, IsPath, PureGraph;
    if p :| p != [] && IsPureTrail(reg, p) && p[0] == from && p[|p| - 1] == name {
      PureTrailIsPath(reg, p);
      assert Leads(PureGraph(reg), p, from, name);
    }
    if p :| Leads(PureGraph(reg), p, from, name) {
      PathParts(PureGraph(reg), p);
      PureTrailIsPath(reg, p);
    }
  }

  /** The method needs the pure function: a compiled function it needs names it, or one that leads to it. */
  ghost predicate NeedsPureFn(env: MetadataEnv, m: Method, name: string) {
    exists j, from :: NamesPure(env, m, j, from) && PureLeadsTo(env.registry, from, name)
  }

  ghost predicate NamesPure(env: MetadataEnv, m: Method, j: string, from: string) {
    NeedsFn(env, m, j) && j in env.registry.jit && from in env.registry.jit[j].pureFnDependencies
  }

  lemma NeedsPureFnIs(env: MetadataEnv, m: Method, name: string)
    ensures NeedsPureFn(env, m, name) <==> name in PureFromAny(env.registry, WantedBy(env, m))
  {
    hide NeedsFn, PureLeadsTo, Reaches, PureGraph, JitGraph, WantedBy;
    var reg := env.registry;
    if j, from :| NamesPure(env, m, j, from) && PureLeadsTo(reg, from, name) {
      NeedsFnIs(env, m, j);
      PureLeadsToIs(reg, from, name);
      var f :| f in WantedBy(env, m) && f in reg.jit && Reaches(JitGraph(reg), f, j);
      assert UsesPure(reg, f, j, from);
      assert NeedsPure(reg, f, name);
    }
    if name in PureFromAny(reg, WantedBy(env, m)) {
      var f :| f in WantedBy(env, m) && f in reg.jit && NeedsPure(reg, f, name);
      var j, root :| UsesPure(reg, f, j, root) && Reaches(PureGraph(reg), root, name);
      NeedsFnIs(env, m, j);
      PureLeadsToIs(reg, root, name);
      assert NamesPure(env, m, j, root);
    }
  }

  /** The pure functions sent are those some listed method needs and that are not built in. */
  lemma SendsExactlyPureFns(env: MetadataEnv, methods: map<string, Method>, name: string)
    ensures PureFnOfSome(env, methods, name) <==>
              && (forall hash :: !IsName(name, "rt", hash) && !IsName(name, "rtFormats", hash))
              && exists id :: id in methods && NeedsPureFn(env, methods[id], name)
  {
    hide NeedsPureFn, PureFromAny, WantedBy, IsBuiltin, IsName;
    BuiltInExactly(name);
    forall id | id in methods
      ensures NeedsPureFn(env, methods[id], name) <==> name in PureFromAny(env.registry, WantedBy(env, methods[id]))
    {
      NeedsPureFnIs(env, methods[id], name);
    }
  }
}
