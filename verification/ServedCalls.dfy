/** Which chain a call gets and what it is answered, said of the call and the router alone. */
module ServedCalls {
  import opened Basics
  import opened Context
  import opened Dispatch
  import opened RouteTree
  import opened ContextPool
  import ChainOrder

  /** The call asks for a flow: its own path is the flows' path, or ends in it under a base path. */
  ghost predicate AsksForFlow(env: PoolEnv, call: Call) {
    if env.hasPrefix then exists base :: call.path == base + "/mion-routes-flow" else call.path == "/mion-routes-flow"
  }

  /** The path looked up: the transformed one, or the call's own when that is empty. */
  ghost predicate LooksUp(env: PoolEnv, call: Call, path: string) {
    if env.pathTransform(call.raw, call.path) == "" then path == call.path
    else path == env.pathTransform(call.raw, call.path)
  }

  lemma FlowPathIs(env: PoolEnv, call: Call)
    ensures AsksForFlow(env, call) <==>
              if env.hasPrefix then EndsWith(call.path, WORKFLOW_PATH) else call.path == WORKFLOW_PATH
  {
    var key := "/mion-routes-flow";
    assert WORKFLOW_PATH == key;
    if EndsWith(call.path, key) {
      assert call.path == call.path[..|call.path| - |key|] + key;
    }
    if base :| call.path == base + key {
      assert call.path[|call.path| - |key|..] == key;
    }
  }

  /** A call gets the chain of the flow it asks for, or the flow's error; else the chain registered under its path;
      else the not-found chain; else an error. */
  lemma ChainIsThatOf(env: PoolEnv, call: Call, path: string)
    requires LooksUp(env, call, path)
    ensures var found := GetExecutionChain(env, call);
            if AsksForFlow(env, call) then
              match env.flow(call.raw, call.urlQuery)
              case Ok(flow) => found == Ok((flow.0, Some(flow.1)))
              case Err(error) => found == Err(error)
            else if path in env.router then found == Ok((env.router[path], None))
            else if env.notFoundPath in env.router then found == Ok((env.router[env.notFoundPath], None))
            else found == Err(RpcError("not-found", Some(422), 0))
  {
    hide EndsWith;
    FlowPathIs(env, call);
  }

  /** Two routers that differ at most in what is registered under the not-found path. */
  ghost predicate DifferInNotFound(env: PoolEnv, other: PoolEnv) {
    && other == env.(router := other.router)
    && forall path :: path != env.notFoundPath ==>
         (path in env.router <==> path in other.router)
         && (path in env.router ==> env.router[path] == other.router[path])
  }

  /** What a registered path is answered does not depend on the not-found route. */
  lemma RegisteredIgnoresNotFound(env: PoolEnv, other: PoolEnv, call: Call, path: string)
    requires DifferInNotFound(env, other) && LooksUp(env, call, path)
    requires path in env.router && path != env.notFoundPath
    ensures GetExecutionChain(other, call) == GetExecutionChain(env, call)
  {
    ChainIsThatOf(env, call, path);
    ChainIsThatOf(other, call, path);
  }

  /** Whatever is registered under the not-found path is served exactly to the calls that ask for no flow and whose path
      is not registered, or is the not-found path itself. */
  lemma NotFoundIsServedIff(env: PoolEnv, call: Call, path: string)
    requires LooksUp(env, call, path)
    ensures (forall chain: ExecutionChain ::
               GetExecutionChain(env.(router := env.router[env.notFoundPath := chain]), call) == Ok((chain, None))) <==>
              !AsksForFlow(env, call) && (path !in env.router || path == env.notFoundPath)
  {
    hide GetExecutionChain, AsksForFlow;
    forall chain: ExecutionChain
      ensures GetExecutionChain(env.(router := env.router[env.notFoundPath := chain]), call) == Ok((chain, None)) <==>
                !AsksForFlow(env, call)
                  && (path !in env.router || path == env.notFoundPath || env.router[path] == chain)
    {
      var other := env.(router := env.router[env.notFoundPath := chain]);
      ChainIsThatOf(other, call, path);
      SamePaths(env, other, call);
    }
    if path in env.router && path != env.notFoundPath {
      var mine := env.router[path];
      var chain := mine.(serializer := if mine.serializer.Json? then Binary else Json);
      assert chain != mine;
      assert GetExecutionChain(env.(router := env.router[env.notFoundPath := chain]), call) != Ok((chain, None));
    }
    if AsksForFlow(env, call) {
      var chain := ExecutionChain([], Json);
      assert GetExecutionChain(env.(router := env.router[env.notFoundPath := chain]), call) != Ok((chain, None));
    }
  }

  lemma SamePaths(env: PoolEnv, other: PoolEnv, call: Call)
    requires other == env.(router := other.router)
    ensures AsksForFlow(other, call) <==> AsksForFlow(env, call)
  {
  }

  /** A context made or reset for a call has the path looked up, the chain found, and the body as it came, of the kind
      it was told or, untold, looks to be. */
  lemma ContextIsTheCalls(ctx: CallContext, env: PoolEnv, call: Call)
    requires IsNewFor(ctx, env, call)
    ensures LooksUp(env, call, ctx.path) && ctx.urlQuery == call.urlQuery && ctx.shared == env.contextData
    ensures GetExecutionChain(env, call) == Ok((ctx.executionChain, ctx.routesFlowRouteIds))
    ensures ctx.request.rawBody == call.rawBody && ctx.request.headers == call.reqHeaders
    ensures match call.bodyType
            case Some(serializer) => ctx.request.bodyType == serializer
            case None =>
              match call.rawBody
              case Text(_) => ctx.request.bodyType == StringifyJson
              case Bytes(_) => ctx.request.bodyType == Binary
              case Parsed(_) => ctx.request.bodyType == Json
  {
    hide GetExecutionChain;
  }

  // ---------- What a call is answered ----------

  /** The state a call starts in: nothing read, nothing answered, status 200, the response headers and context data it
      is given. */
  ghost predicate StartsIn(env: PoolEnv, call: Call, s: State) {
    s == State(map[], map[], 200, false, call.respHeaders, map[], env.contextData)
  }

  /** What its handlers see of the request: its headers, and whether the body is binary, as told or as it looks. */
  ghost predicate Brings(call: Call, rq: Incoming) {
    && rq.headers == call.reqHeaders
    && rq.isBinary == match call.bodyType case Some(serializer) => serializer.Binary? case None => call.rawBody.Bytes?
  }

  /** An answer is what the chain the call gets does, run alone on the request from the start. */
  lemma AnswerIsTheRunOf(env: PoolEnv, a: Answer, rq: Incoming, s: State, chain: ExecutionChain)
    requires AnswerOk(env, a) && GetExecutionChain(env, a.call).Ok? && chain == GetExecutionChain(env, a.call).value.0
    requires StartsIn(env, a.call, s) && Brings(a.call, rq)
    ensures var after := Run(rq, s, chain.methods);
            && a.response.statusCode == after.statusCode && a.response.hasErrors == after.hasErrors
            && a.response.headers == after.headers && a.response.body == after.respBody
            && a.response.serializer == chain.serializer
  {
    hide GetExecutionChain, Run;
    assert chain.methods[..|chain.methods|] == chain.methods;
  }

  // ---------- From the tree to the call ----------

  /** The pool's router holds what the route tree's does, each method by its executable. */
  ghost predicate Holds(env: PoolEnv, flat: map<string, Chain>, impl: RemoteMethod -> Executable) {
    && env.router.Keys == flat.Keys
    && forall path :: path in flat ==>
         && |env.router[path].methods| == |flat[path].methods|
         && (forall i :: 0 <= i < |flat[path].methods| ==> env.router[path].methods[i] == impl(flat[path].methods[i]))
         && env.router[path].serializer == flat[path].serializer
  }

  /** A call to the path of a leaf of a registered tree gets that leaf's chain: the start methods, what is around the
      leaf in order, the end methods. */
  lemma LeafAnswersItsPath(
    env: PoolEnv, call: Call, impl: RemoteMethod -> Executable, routes: Routes, start: seq<RemoteMethod>,
    end: seq<RemoteMethod>, opts: PathOptions, cache: Cache, router: map<string, Chain>, leaf: seq<nat>)
    returns (c: Chain, made: seq<RemoteMethod>, order: seq<seq<nat>>)
    requires IsLeaf(routes, leaf) && NoDup(Ids(routes, [], true, |routes|)) && !AsksForFlow(env, call)
    requires Holds(
               env, Filed(router, ReusedItems(cache, Flatten(routes, RootFrame(start, end, opts), |routes|))), impl)
    requires ChainOrder.IsPlace(routes, leaf) &&
             LooksUp(env, call, ChainOrder.PathOf(ChainOrder.KeysTo(routes, leaf), opts))
    ensures ChainOrder.RunsInOrder(c, start, made, end, routes, leaf, order, cache)
    ensures var found := GetExecutionChain(env, call);
            && found.Ok? && found.value.1 == None && |found.value.0.methods| == |c.methods|
            && (forall i :: 0 <= i < |c.methods| ==> found.value.0.methods[i] == impl(c.methods[i]))
            && found.value.0.serializer == c.serializer
  {
    hide GetExecutionChain, Filed, ReusedItems, Flatten, Ids, IsLeaf, AsksForFlow, LooksUp, ChainOrder.RunsInOrder,
      ChainOrder.PathOf, ChainOrder.KeysTo;
    made, order := ChainOrder.LeafRunsInOrder(routes, start, end, opts, cache, router, leaf);
    var flat := Filed(router, ReusedItems(cache, Flatten(routes, RootFrame(start, end, opts), |routes|)));
    var path := ChainOrder.PathOf(ChainOrder.KeysTo(routes, leaf), opts);
    c := flat[path];
    ChainIsThatOf(env, call, path);
  }
}
