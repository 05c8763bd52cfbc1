/** What a flow request gets, said of the request and the router alone. */
module FlowRequests {
  import opened Basics
  import opened RouteTree
  import opened RoutesFlow

  // ---------- Which chains are merged ----------

  /** Where a path of the request leads: to its transform, or to itself when that is empty. */
  ghost predicate LeadsTo(env: FlowEnv, raw: nat, path: string, target: string) {
    if env.pathTransform(raw, path) == "" then target == path else target == env.pathTransform(raw, path)
  }

  ghost predicate IsServed(env: FlowEnv, raw: nat, path: string) {
    exists target :: LeadsTo(env, raw, path, target) && target in env.router
  }

  lemma LeadsToIs(env: FlowEnv, raw: nat, path: string)
    ensures forall target :: LeadsTo(env, raw, path, target) <==> target == PathFor(env, raw, path)
    ensures IsServed(env, raw, path) <==> PathFor(env, raw, path) in env.router
  {
    assert LeadsTo(env, raw, path, PathFor(env, raw, path));
  }

  /** A request is resolved exactly when every path of it is served, each to the chain it leads to; otherwise the first
      path that is not served is named. */
  lemma {:induction false} ResolvedExactlyWhen(env: FlowEnv, raw: nat, routes: seq<string>)
    ensures Resolved(env, raw, routes).Ok? <==> forall k :: 0 <= k < |routes| ==> IsServed(env, raw, routes[k])
    ensures Resolved(env, raw, routes).Ok? ==>
              forall k, target :: 0 <= k < |routes| && LeadsTo(env, raw, routes[k], target) ==>
                target in env.router && Resolved(env, raw, routes).value[k] == env.router[target]
    ensures Resolved(env, raw, routes).Err? ==>
              exists k :: 0 <= k < |routes| && IsFirstUnserved(env, raw, routes, k)
                && Resolved(env, raw, routes) == Err(RouteNotFound(routes[k]))
  {
    hide LeadsTo, IsServed, PathFor;
    if routes != [] {
      var n := |routes| - 1;
      ResolvedExactlyWhen(env, raw, routes[..n]);
      LeadsToIs(env, raw, routes[n]);
      if Resolved(env, raw, routes[..n]).Err? {
        var k :| 0 <= k < n && IsFirstUnserved(env, raw, routes[..n], k)
                 && Resolved(env, raw, routes[..n]) == Err(RouteNotFound(routes[..n][k]));
        assert IsFirstUnserved(env, raw, routes, k);
      } else if !IsServed(env, raw, routes[n]) {
        assert IsFirstUnserved(env, raw, routes, n);
      }
    }
  }

  ghost predicate IsFirstUnserved(env: FlowEnv, raw: nat, routes: seq<string>, k: int) {
    && 0 <= k < |routes| && !IsServed(env, raw, routes[k])
    && forall j :: 0 <= j < k ==> IsServed(env, raw, routes[j])
  }

  ghost predicate NamedIn(ms: seq<RemoteMethod>, id: string) {
    exists m :: m in ms && m.id == id
  }

  ghost predicate StandsIn(chains: seq<Chain>, m: RemoteMethod) {
    exists c :: c in chains && m in c.methods
  }

  ghost predicate NamedInSome(chains: seq<Chain>, id: string) {
    exists m :: StandsIn(chains, m) && m.id == id
  }

  /** What is merged of some chains: their methods, each id once, but for the ids of start and end methods. */
  ghost predicate IsMergeOf(
    middle: seq<RemoteMethod>, chains: seq<Chain>, start: seq<RemoteMethod>, end: seq<RemoteMethod>)
  {
    && (forall i, j :: 0 <= i < j < |middle| ==> middle[i].id != middle[j].id)
    && (forall m :: m in middle ==> StandsIn(chains, m))
    && forall id :: NamedIn(middle, id) <==> NamedInSome(chains, id) && !NamedIn(start, id) && !NamedIn(end, id)
  }

  /** Without its steps a built chain is the start methods, what is merged of the requested chains, the end methods. */
  lemma BuiltOfTheChains(env: FlowEnv, raw: nat, query: Query, cache: map<string, Mapping>)
    requires query.routes != [] && Build(env, raw, query, cache).Ok?
    ensures Resolved(env, raw, query.routes).Ok?
    ensures var own := Erase(Build(env, raw, query, cache).value.steps);
            && |env.start| + |env.end| <= |own|
            && own[..|env.start|] == env.start && own[|own| - |env.end|..] == env.end
            && IsMergeOf(own[|env.start|..|own| - |env.end|], Resolved(env, raw, query.routes).value, env.start,
                 env.end)
  {
    hide Resolved, Merge, AllMethods, Build, Skip, Erase, IsMergeOf;
    ErasedBuild(env, raw, query, cache);
    var chains := Resolved(env, raw, query.routes).value;
    var middle, own := Merge(AllMethods(chains), Skip(env)), Erase(Build(env, raw, query, cache).value.steps);
    assert own[..|env.start|] == env.start && own[|own| - |env.end|..] == env.end;
    assert own[|env.start|..|own| - |env.end|] == middle;
    MergedIsMerge(env, chains);
  }

  lemma MergedIsMerge(env: FlowEnv, chains: seq<Chain>)
    ensures IsMergeOf(Merge(AllMethods(chains), Skip(env)), chains, env.start, env.end)
  {
    hide Merge, AllMethods, NamedIn, NamedInSome, StandsIn;
    var all := AllMethods(chains);
    var middle := Merge(all, Skip(env));
    MergeMembers(all, Skip(env));
    AllMethodsAre(chains);
    forall id
      ensures NamedIn(middle, id) <==> NamedInSome(chains, id) && !NamedIn(env.start, id) && !NamedIn(env.end, id)
    {
      NamedIs(middle, id);
      NamedIs(env.start, id);
      NamedIs(env.end, id);
      NamedIs(all, id);
      assert NamedInSome(chains, id) <==> NamedIn(all, id) by {
        AllMethodsAre(chains);
        SameNames(chains, id);
      }
    }
  }

  lemma NamedIs(ms: seq<RemoteMethod>, id: string)
    ensures NamedIn(ms, id) <==> id in IdSet(ms)
  {
  }

  lemma SameNames(chains: seq<Chain>, id: string)
    ensures NamedInSome(chains, id) <==> NamedIn(AllMethods(chains), id)
  {
    hide AllMethods, StandsIn;
    AllMethodsAre(chains);
  }

  /** Its index is that of the first route's chain, and it is sent as all its chains are, or by default if they
      differ. */
  lemma BuiltIsSentAs(env: FlowEnv, raw: nat, query: Query, cache: map<string, Mapping>)
    requires query.routes != [] && Build(env, raw, query, cache).Ok?
    ensures Resolved(env, raw, query.routes).Ok?
    ensures var chains, built := Resolved(env, raw, query.routes).value, Build(env, raw, query, cache).value;
            && built.routeIndex == chains[0].routeIndex
            && (if forall c, d :: c in chains && d in chains ==> c.serializer == d.serializer
                then built.serializer == chains[0].serializer else built.serializer == env.defaultSerializer)
  {
    hide Resolved, Merge, AllMethods, FirstRefusal, Created, Woven, OwnSteps;
    var chains := Resolved(env, raw, query.routes).value;
    assert chains[0] in chains;
  }

  lemma {:induction false} AllMethodsAre(chains: seq<Chain>)
    ensures forall m :: m in AllMethods(chains) <==> StandsIn(chains, m)
  {
    if chains != [] {
      var n := |chains| - 1;
      AllMethodsAre(chains[..n]);
      assert chains == chains[..n] + [chains[n]];
    }
  }

  // ---------- Which mappings are refused ----------

  /** Why a mapping cannot be threaded through these methods, if it cannot: the first of four reasons. */
  ghost predicate IsRefused(ms: seq<RemoteMethod>, m: Mapping, mappers: set<string>, e: FlowError) {
    if forall x :: x in ms ==> x.id != m.fromId then e == InvalidSource(m)
    else if forall x :: x in ms ==> x.id != m.toId then e == InvalidTarget(m)
    else if forall x :: x in ms && x.id == m.toId ==> x.def.paramsCount <= m.paramIndex then e == InvalidParamIndex(m)
    else m.bodyHash !in mappers && e == MissingPureFn(m)
  }

  lemma IsRefusedIff(ms: seq<RemoteMethod>, m: Mapping, mappers: set<string>, e: FlowError)
    requires DistinctIds(ms)
    ensures Refusal(ms, IndexMap(ms), m, mappers) == Some(e) <==> IsRefused(ms, m, mappers, e)
  {
    hide IndexMap;
    IndexMapFinds(ms);
    var index := IndexMap(ms);
    forall x | x in ms ensures x.id in index && ms[index[x.id]] == x {
      var i :| 0 <= i < |ms| && ms[i] == x;
    }
    forall id | id in index ensures ms[index[id]] in ms { }
  }

  ghost predicate IsFirstRefused(
    ms: seq<RemoteMethod>, mappings: seq<Mapping>, mappers: set<string>, k: int, e: FlowError)
  {
    && 0 <= k < |mappings| && IsRefused(ms, mappings[k], mappers, e)
    && forall j, other :: 0 <= j < k ==> !IsRefused(ms, mappings[j], mappers, other)
  }

  /** The request is refused for its first mapping that is, and for the reason that one is. */
  lemma {:induction false} RefusedExactlyWhen(ms: seq<RemoteMethod>, mappings: seq<Mapping>, mappers: set<string>)
    requires DistinctIds(ms)
    ensures FirstRefusal(ms, mappings, mappers).None? <==>
              forall m, e :: m in mappings ==> !IsRefused(ms, m, mappers, e)
    ensures FirstRefusal(ms, mappings, mappers).Some? ==>
              exists k :: IsFirstRefused(ms, mappings, mappers, k, FirstRefusal(ms, mappings, mappers).value)
  {
    hide IsRefused, Refusal, DistinctIds;
    if mappings != [] {
      var n := |mappings| - 1;
      var m := mappings[n];
      RefusedExactlyWhen(ms, mappings[..n], mappers);
      assert mappings == mappings[..n] + [m];
      forall e ensures Refusal(ms, IndexMap(ms), m, mappers) == Some(e) <==> IsRefused(ms, m, mappers, e) {
        IsRefusedIff(ms, m, mappers, e);
      }
      if FirstRefusal(ms, mappings[..n], mappers).Some? {
        var e := FirstRefusal(ms, mappings[..n], mappers).value;
        var k :| IsFirstRefused(ms, mappings[..n], mappers, k, e);
        assert IsFirstRefused(ms, mappings, mappers, k, e);
        assert mappings[k] in mappings;
      } else if Refusal(ms, IndexMap(ms), m, mappers).Some? {
        var e := Refusal(ms, IndexMap(ms), m, mappers).value;
        forall j, other | 0 <= j < n ensures !IsRefused(ms, mappings[j], mappers, other) {
          assert mappings[..n][j] in mappings[..n];
        }
        assert IsFirstRefused(ms, mappings, mappers, n, e);
      }
    }
  }

  /** The route ids a flow answers with are its paths, each without one leading slash. */
  lemma {:induction false} RouteIdsAreThePaths(paths: seq<string>)
    ensures |StripSlashes(paths)| == |paths|
    ensures forall k :: 0 <= k < |paths| ==>
              if paths[k] != "" && paths[k][0] == '/' then paths[k] == "/" + StripSlashes(paths)[k]
              else StripSlashes(paths)[k] == paths[k]
  {
    if paths != [] { RouteIdsAreThePaths(paths[1..]); }
  }

  // ---------- Which mappings share a step ----------

  /** Two mappings with one step id that agree in two of source, mapper and target agree in the third. */
  lemma StepIdTells(m: Mapping, n: Mapping)
    requires StepId(m) == StepId(n)
    ensures m.fromId == n.fromId && m.bodyHash == n.bodyHash ==> m.toId == n.toId
    ensures m.fromId == n.fromId && m.toId == n.toId ==> m.bodyHash == n.bodyHash
    ensures m.bodyHash == n.bodyHash && m.toId == n.toId ==> m.fromId == n.fromId
  {
    if m.fromId == n.fromId && m.bodyHash == n.bodyHash {
      SameBack("mionMapFrom_" + m.fromId + "_" + m.bodyHash + "_to_", m.toId, n.toId);
    }
    if m.toId == n.toId {
      var back := "_to_" + m.toId;
      assert StepId(m) == ("mionMapFrom_" + m.fromId + "_" + m.bodyHash) + back;
      assert StepId(n) == ("mionMapFrom_" + n.fromId + "_" + n.bodyHash) + back;
      SameFront("mionMapFrom_" + m.fromId + "_" + m.bodyHash, "mionMapFrom_" + n.fromId + "_" + n.bodyHash, back);
      if m.fromId == n.fromId { SameBack("mionMapFrom_" + m.fromId + "_", m.bodyHash, n.bodyHash); }
      if m.bodyHash == n.bodyHash {
        assert "mionMapFrom_" + m.fromId + "_" + m.bodyHash == ("mionMapFrom_" + m.fromId) + ("_" + m.bodyHash);
        assert "mionMapFrom_" + n.fromId + "_" + n.bodyHash == ("mionMapFrom_" + n.fromId) + ("_" + n.bodyHash);
        SameFront("mionMapFrom_" + m.fromId, "mionMapFrom_" + n.fromId, "_" + m.bodyHash);
        SameBack("mionMapFrom_", m.fromId, n.fromId);
      }
    }
  }

  lemma SameBack(front: string, a: string, b: string)
    requires front + a == front + b
    ensures a == b
  {
    assert (front + a)[|front|..] == a && (front + b)[|front|..] == b;
  }

  lemma SameFront(a: string, b: string, back: string)
    requires a + back == b + back
    ensures a == b
  {
    assert |a + back| == |b + back|;
    assert (a + back)[..|a|] == a && (b + back)[..|b|] == b;
  }

  /** An id does not say where the source ends and the mapper begins: two mappings may share a step for that. */
  lemma StepIdsCollide(to: string, i: nat)
    ensures var m, n := Mapping("a_b", to, "c", i), Mapping("a", to, "b_c", i);
            m != n && StepId(m) == StepId(n)
  {
    assert "a_b" + "_" + "c" == "a" + "_" + "b_c";
    var front, back := "mionMapFrom_", "_to_" + to;
    assert StepId(Mapping("a_b", to, "c", i)) == front + ("a_b" + "_" + "c") + back;
    assert StepId(Mapping("a", to, "b_c", i)) == front + ("a" + "_" + "b_c") + back;
  }

  /** One source feeding several targets through one mapper, each target once. */
  ghost predicate FansOut(mappings: seq<Mapping>, from: string, mapper: string) {
    && (forall m :: m in mappings ==> m.fromId == from && m.bodyHash == mapper)
    && forall m, n :: m in mappings && n in mappings && m.toId == n.toId ==> m == n
  }

  /** Such mappings have a step of their own each, when no step was cached before. */
  lemma FanOutIdsAgree(mappings: seq<Mapping>, from: string, mapper: string)
    requires FansOut(mappings, from, mapper)
    ensures IdsAgree(map[], mappings)
  {
    hide StepId;
    forall m, n | m in mappings && n in mappings && StepId(m) == StepId(n) ensures m == n { StepIdTells(m, n); }
  }
}
