/** The context pool: call contexts are reused between calls, response objects never. */
module ContextPool {
  import opened Basics
  import opened Context
  import opened Dispatch
  import opened RouteTree

  // ---------- A call and its chain ----------

  datatype Call = Call(
    path: string, rawBody: RawBody, raw: nat, reqHeaders: map<string, string>, respHeaders: map<string, string>,
    bodyType: Option<Serializer>, urlQuery: string)

  /** The router as the pool sees it. `flow` is the chain of a routes flow, with its route ids. */
  datatype PoolEnv = PoolEnv(
    pathTransform: (nat, string) -> string, hasPrefix: bool, contextData: nat,
    flow: (nat, string) -> Result<(ExecutionChain, seq<string>), RpcError>,
    router: map<string, ExecutionChain>, notFoundPath: string)

  const NOT_FOUND: RpcError := RpcError("not-found", Some(UNEXPECTED_ERROR), 0)
  const WORKFLOW_PATH: string := "/" + WORKFLOW_KEY

  function TransformedPath(env: PoolEnv, call: Call): string {
    var transformed := env.pathTransform(call.raw, call.path);
    if transformed == "" then call.path else transformed
  }

  predicate EndsWith(s: string, suffix: string) {
    |suffix| <= |s| && s[|s| - |suffix|..] == suffix
  }

  /** The chain of a call: a flow's, the path's, or the not-found route's. */
  function GetExecutionChain(env: PoolEnv, call: Call): Result<(ExecutionChain, Option<seq<string>>), RpcError> {
    var path := TransformedPath(env, call);
    if (if env.hasPrefix then EndsWith(call.path, WORKFLOW_PATH) else call.path == WORKFLOW_PATH) then
      match env.flow(call.raw, call.urlQuery)
      case Ok(found) => Ok((found.0, Some(found.1)))
      case Err(error) => Err(error)
    else if path in env.router then Ok((env.router[path], None))
    else if env.notFoundPath in env.router then Ok((env.router[env.notFoundPath], None))
    else Err(NOT_FOUND)
  }

  function GetRequestBodyType(rawBody: RawBody): Serializer {
    match rawBody
    case Text(_) => StringifyJson
    case Bytes(_) => Binary
    case Parsed(_) => Json
  }

  function BodyTypeOf(call: Call): Serializer {
    if call.bodyType.Some? then call.bodyType.value else GetRequestBodyType(call.rawBody)
  }

  /** The state every call starts in, whichever context carries it. */
  function StartState(env: PoolEnv, call: Call): State {
    State(map[], map[], OK, false, call.respHeaders, map[], env.contextData)
  }

  function IncomingOf(call: Call): Incoming {
    Incoming(call.reqHeaders, BodyTypeOf(call).Binary?)
  }

  /** Every field of the context, its request and its response is what the call asks for. */
  ghost predicate IsNewFor(ctx: CallContext, env: PoolEnv, call: Call)
    reads ctx, ctx.request, ctx.response
  {
    var req := ctx.request;
    && GetExecutionChain(env, call).Ok?
    && ctx.path == TransformedPath(env, call) && ctx.urlQuery == call.urlQuery && ctx.shared == env.contextData
    && (ctx.executionChain, ctx.routesFlowRouteIds) == GetExecutionChain(env, call).value
    && req.headers == call.reqHeaders && req.rawBody == call.rawBody && req.bodyType == BodyTypeOf(call)
    && req.body == map[] && req.thrownErrors == map[]
    && ctx.response.IsNew(call.respHeaders)
  }

  lemma NewContextStarts(ctx: CallContext, env: PoolEnv, call: Call)
    requires IsNewFor(ctx, env, call)
    ensures ctx.View() == StartState(env, call) && ctx.In() == IncomingOf(call)
  {
  }

  /** A context made from scratch. */
  method CreateCallContext(env: PoolEnv, call: Call) returns (r: Result<CallContext, RpcError>)
    ensures r.Err? <==> GetExecutionChain(env, call).Err?
    ensures r.Err? ==> r.error == GetExecutionChain(env, call).error
    ensures r.Ok? ==>
              fresh(r.value) && fresh(r.value.request) && fresh(r.value.response) && IsNewFor(r.value, env, call)
  {
    var found := GetExecutionChain(env, call);
    if found.Err? { return Err(found.error); }
    var request := new MionRequest(call.reqHeaders, call.rawBody, BodyTypeOf(call));
    var response := new MionResponse(call.respHeaders);
    var ctx := new CallContext(TransformedPath(env, call), request, response, found.value.0, env.contextData,
      call.urlQuery, found.value.1);
    r := Ok(ctx);
  }

  /** No two contexts share a request or a response object. */
  ghost predicate ShareNothing(cs: set<CallContext>)
    reads cs`response
  {
    forall c, d :: c in cs && d in cs && c != d ==> c.request != d.request && c.response != d.response
  }

  ghost predicate NoneReturned(cs: set<CallContext>, returned: set<MionResponse>)
    reads cs`response
  {
    forall c :: c in cs ==> c.response !in returned
  }

  class Pool {
    var contextPool: seq<CallContext>
    /** contexts handed out and not released yet */
    ghost var inFlight: set<CallContext>
    /** response objects handed back to callers */
    ghost var returned: set<MionResponse>
    ghost var live: set<CallContext>

    constructor ()
      ensures Valid() && contextPool == [] && inFlight == {} && returned == {}
    {
      contextPool, inFlight, returned, live := [], {}, {}, {};
    }

    /** Contexts are pooled once or in flight, never both; live contexts share nothing with each other, and
        none reaches a response a caller holds. */
    ghost predicate Valid()
      reads this, live`response
    {
      && NoDup(contextPool) && live == Elements(contextPool) + inFlight && Elements(contextPool) !! inFlight
      && ShareNothing(live) && NoneReturned(live, returned)
    }

    /** A context for a call: the pool's newest, fully reset, or one made from scratch. */
    method AcquireCallContext(usePooling: bool, env: PoolEnv, call: Call) returns (r: Result<CallContext, RpcError>)
      requires Valid()
      modifies this`contextPool, this`inFlight, this`live
      modifies PoppedContext(), PoppedRequest(), PoppedResponse()
      ensures Valid()
      ensures contextPool == if usePooling && old(contextPool) != [] then old(contextPool)[..|old(contextPool)| - 1]
          else old(contextPool)
      ensures r.Err? <==> GetExecutionChain(env, call).Err?
      ensures r.Err? ==> r.error == GetExecutionChain(env, call).error && inFlight == old(inFlight)
      ensures r.Ok? ==>
                r.value !in old(inFlight) && inFlight == old(inFlight) + {r.value} && IsNewFor(r.value, env, call)
      ensures live <= old(live) + inFlight
      ensures forall c :: c in old(live) ==> c.response == old(c.response)
      ensures r.Ok? && usePooling && old(contextPool) != [] ==> r.value == old(contextPool[|contextPool| - 1])
      ensures r.Ok? && !(usePooling && old(contextPool) != []) ==>
                fresh(r.value) && fresh(r.value.request) && fresh(r.value.response)
    {
      hide NoDup, Elements, ShareNothing, NoneReturned, IsNewFor, GetExecutionChain;
      if usePooling && contextPool != [] {
        var ctx := contextPool[|contextPool| - 1];
        ghost var was := live;
        PopLast(contextPool);
        contextPool := contextPool[..|contextPool| - 1];
        live := live - {ctx};
        FewerShareNothing(was, live, returned);
        r := Reset(ctx, env, call);
        if r.Ok? {
          inFlight := inFlight + {ctx};
          live := was;
        }
      } else {
        r := CreateCallContext(env, call);
        if r.Ok? {
          inFlight := inFlight + {r.value};
          OneMoreSharesNothing(live, returned, r.value);
          live := live + {r.value};
        }
      }
    }

    /** Hands the response to the caller. */
    ghost method Return(ctx: CallContext)
      requires Valid() && ctx in inFlight
      modifies this`inFlight, this`live, this`returned
      ensures Valid()
      ensures inFlight == old(inFlight) - {ctx} && returned == old(returned) + {ctx.response}
      ensures live == old(live) - {ctx} && ctx !in contextPool
    {
      hide NoDup, Elements;
      InPool(contextPool, ctx);
      inFlight := inFlight - {ctx};
      live := live - {ctx};
      returned := returned + {ctx.response};
    }

    /** Files a context whose response has been returned, with a response object of its own; drops it when
        the pool is full. */
    method ReleaseCallContext(ctx: CallContext, maxPoolSize: int)
      requires Valid() && ctx !in contextPool && ctx !in inFlight
      requires forall c :: c in live ==> c.request != ctx.request
      modifies this`contextPool, this`live, ctx`response, ctx`shared, ctx`executionChain, ctx`routesFlowRouteIds
      modifies ctx.request`rawBody, ctx.request`body, ctx.request`thrownErrors
      ensures Valid()
      ensures contextPool == if |old(contextPool)| < maxPoolSize then old(contextPool) + [ctx] else old(contextPool)
      ensures live <= old(live) + {ctx} && (ctx in live ==> fresh(ctx.response))
    {
      hide NoDup, Elements, ShareNothing, NoneReturned;
      if |contextPool| < maxPoolSize {
        var req := ctx.request;
        req.rawBody, req.body, req.thrownErrors := Text(""), map[], map[];
        var response := new MionResponse(map[]);
        ctx.response := response;
        ctx.shared, ctx.executionChain, ctx.routesFlowRouteIds := 0, ExecutionChain([], Json), None;
        PushLast(contextPool, ctx);
        InPool(contextPool, ctx);
        OneMoreSharesNothing(live, returned, ctx);
        contextPool := contextPool + [ctx];
        live := live + {ctx};
      }
    }

    ghost function PoppedContext(): set<object>
      reads this
    {
      if contextPool == [] then {} else {contextPool[|contextPool| - 1]}
    }

    ghost function PoppedRequest(): set<object>
      reads this
    {
      if contextPool == [] then {} else {contextPool[|contextPool| - 1].request}
    }

    ghost function PoppedResponse(): set<object>
      reads this, PoppedContext()
    {
      if contextPool == [] then {} else {contextPool[|contextPool| - 1].response}
    }
  }

  lemma PopLast(pool: seq<CallContext>)
    requires NoDup(pool) && pool != []
    ensures NoDup(pool[..|pool| - 1])
    ensures Elements(pool[..|pool| - 1]) == Elements(pool) - {pool[|pool| - 1]}
    ensures pool[|pool| - 1] in Elements(pool)
  {
    var front, last := pool[..|pool| - 1], pool[|pool| - 1];
    assert pool == front + [last];
    assert forall c :: c in pool <==> c in front || c == last;
  }

  lemma PushLast(pool: seq<CallContext>, ctx: CallContext)
    requires NoDup(pool) && ctx !in pool
    ensures NoDup(pool + [ctx]) && Elements(pool + [ctx]) == Elements(pool) + {ctx}
  {
    assert forall c :: c in pool + [ctx] <==> c in pool || c == ctx;
  }

  lemma InPool(pool: seq<CallContext>, ctx: CallContext)
    ensures ctx in pool <==> ctx in Elements(pool)
  {
  }

  lemma FewerShareNothing(more: set<CallContext>, fewer: set<CallContext>, returned: set<MionResponse>)
    requires fewer <= more && ShareNothing(more) && NoneReturned(more, returned)
    ensures ShareNothing(fewer) && NoneReturned(fewer, returned)
  {
  }

  lemma OneMoreSharesNothing(cs: set<CallContext>, returned: set<MionResponse>, c: CallContext)
    requires ShareNothing(cs) && NoneReturned(cs, returned)
    requires c.response !in returned && forall d :: d in cs ==> d.request != c.request && d.response != c.response
    ensures ShareNothing(cs + {c}) && NoneReturned(cs + {c}, returned)
  {
  }

  method ResetRequest(req: MionRequest, call: Call)
    modifies req
    ensures req.headers == call.reqHeaders && req.rawBody == call.rawBody && req.bodyType == BodyTypeOf(call)
    ensures req.body == map[] && req.thrownErrors == map[]
  {
    req.headers, req.rawBody, req.bodyType := call.reqHeaders, call.rawBody, BodyTypeOf(call);
    req.body, req.thrownErrors := map[], map[];
  }

  method ResetResponse(resp: MionResponse, headers: map<string, string>)
    modifies resp
    ensures resp.IsNew(headers)
  {
    resp.statusCode, resp.hasErrors, resp.headers, resp.body := OK, false, headers, map[];
    resp.rawBody, resp.serializer, resp.binSerializer, resp.releaseBinBuffer := Text(""), Json, None, None;
  }

  /** Overwrites every field of a pooled context for a new call. The chain is looked up last, so a failing
      lookup leaves the context half reset. */
  method Reset(ctx: CallContext, env: PoolEnv, call: Call) returns (r: Result<CallContext, RpcError>)
    modifies ctx`path, ctx`executionChain, ctx`shared, ctx`urlQuery, ctx`routesFlowRouteIds, ctx.request, ctx.response
    ensures r.Err? <==> GetExecutionChain(env, call).Err?
    ensures r.Err? ==> r.error == GetExecutionChain(env, call).error
    ensures r.Ok? ==> r.value == ctx && IsNewFor(ctx, env, call)
  {
    hide GetExecutionChain;
    ctx.path := TransformedPath(env, call);
    ResetRequest(ctx.request, call);
    ResetResponse(ctx.response, call.respHeaders);
    var found := GetExecutionChain(env, call);
    if found.Err? { return Err(found.error); }
    ctx.executionChain, ctx.routesFlowRouteIds := found.value.0, found.value.1;
    ctx.shared, ctx.urlQuery := env.contextData, call.urlQuery;
    r := Ok(ctx);
  }

  // ---------- Any interleaving of calls ----------

  /** One thing the server does next: accept a call, give one call in flight its next turn, or finish one. */
  datatype Event = Begin(call: Call) | Turn(at: nat) | Finish(at: nat)

  /** A call in flight and how many methods of its chain have had their turn. */
  datatype Flight = Flight(ctx: CallContext, call: Call, turn: nat)

  datatype Answer = Answer(response: MionResponse, call: Call)

  function ChainOfCall(env: PoolEnv, call: Call): ExecutionChain
    requires GetExecutionChain(env, call).Ok?
  {
    GetExecutionChain(env, call).value.0
  }

  /** What the first `turns` methods of the call's chain do when it runs alone. */
  function Alone(env: PoolEnv, call: Call, turns: nat): State
    requires GetExecutionChain(env, call).Ok? && turns <= |ChainOfCall(env, call).methods|
  {
    Run(IncomingOf(call), StartState(env, call), ChainOfCall(env, call).methods[..turns])
  }

  ghost predicate FlightOk(env: PoolEnv, f: Flight)
    reads f.ctx, f.ctx.request, f.ctx.response
  {
    && GetExecutionChain(env, f.call).Ok? && f.ctx.executionChain == ChainOfCall(env, f.call)
    && f.turn <= |ChainOfCall(env, f.call).methods|
    && f.ctx.In() == IncomingOf(f.call)
    && f.ctx.View() == Alone(env, f.call, f.turn)
    && f.ctx.response.serializer == ChainOfCall(env, f.call).serializer
  }

  /** The response holds what the call's whole chain gives when it runs alone. */
  ghost predicate AnswerOk(env: PoolEnv, a: Answer)
    reads a.response
  {
    && GetExecutionChain(env, a.call).Ok?
    && var final := Alone(env, a.call, |ChainOfCall(env, a.call).methods|);
       && a.response.statusCode == final.statusCode && a.response.hasErrors == final.hasErrors
       && a.response.headers == final.headers && a.response.body == final.respBody
       && a.response.serializer == ChainOfCall(env, a.call).serializer
  }

  ghost predicate FlightsOk(env: PoolEnv, pool: Pool, flights: seq<Flight>)
    reads *
  {
    && (forall i :: 0 <= i < |flights| ==> flights[i].ctx in pool.inFlight && FlightOk(env, flights[i]))
    && (forall i, j :: 0 <= i < j < |flights| ==> flights[i].ctx != flights[j].ctx)
  }

  ghost predicate AnswersOk(env: PoolEnv, pool: Pool, answers: seq<Answer>)
    reads *
  {
    forall i :: 0 <= i < |answers| ==> answers[i].response in pool.returned && AnswerOk(env, answers[i])
  }

  /** The run's first move: the response takes the chain's serializer. */
  method StartRun(ctx: CallContext, env: PoolEnv, call: Call)
    requires IsNewFor(ctx, env, call)
    modifies ctx.response`serializer
    ensures FlightOk(env, Flight(ctx, call, 0))
  {
    hide GetExecutionChain;
    NewContextStarts(ctx, env, call);
    ctx.response.serializer := ctx.executionChain.serializer;
  }

  /** What is in flight, or already returned, has nothing in common with the context the pool would hand out. */
  lemma PoppedIsApart(pool: Pool, flights: seq<Flight>, answers: seq<Answer>, env: PoolEnv)
    requires pool.Valid() && FlightsOk(env, pool, flights) && AnswersOk(env, pool, answers) && pool.contextPool != []
    ensures var popped := pool.contextPool[|pool.contextPool| - 1];
            && popped in pool.live && popped !in pool.inFlight
            && (forall i :: 0 <= i < |flights| ==>
                  flights[i].ctx != popped && flights[i].ctx.request != popped.request
                    && flights[i].ctx.response != popped.response)
            && (forall i :: 0 <= i < |answers| ==> answers[i].response != popped.response)
  {
    hide FlightOk, AnswerOk, NoDup;
    var popped := pool.contextPool[|pool.contextPool| - 1];
    assert popped in Elements(pool.contextPool);
  }

  /** Accepts a call and starts its run, up to its first turn. */
  method BeginCall(
    pool: Pool, env: PoolEnv, maxPoolSize: int, call: Call, flights: seq<Flight>, ghost answers: seq<Answer>)
    returns (next: seq<Flight>)
    requires pool.Valid() && FlightsOk(env, pool, flights) && AnswersOk(env, pool, answers)
    modifies pool`contextPool, pool`inFlight, pool`live
    modifies pool.PoppedContext(), pool.PoppedRequest(), pool.PoppedResponse()
    ensures pool.Valid() && FlightsOk(env, pool, next) && AnswersOk(env, pool, answers)
    ensures |pool.contextPool| == if maxPoolSize > 0 && old(|pool.contextPool|) > 0 then old(|pool.contextPool|) - 1
        else old(|pool.contextPool|)
    ensures forall c :: c in pool.live ==>
              (c in old(pool.live) && c.response == old(c.response))
                || (fresh(c) && fresh(c.request) && fresh(c.response))
    ensures if GetExecutionChain(env, call).Err? then next == flights
            else && |next| == |flights| + 1 && next[..|flights|] == flights
                 && next[|flights|].call == call && next[|flights|].turn == 0
  {
    hide NoDup, Elements, ShareNothing, GetExecutionChain, FlightOk, AnswerOk, IsNewFor;
    if pool.contextPool != [] { PoppedIsApart(pool, flights, answers, env); }
    var acquired := pool.AcquireCallContext(maxPoolSize > 0, env, call);
    next := flights;
    if acquired.Ok? {
      var ctx := acquired.value;
      StartRun(ctx, env, call);
      next := flights + [Flight(ctx, call, 0)];
    }
  }

  /** One turn of one call, on its own objects. */
  method TurnOf(env: PoolEnv, f: Flight) returns (after: Flight)
    requires FlightOk(env, f) && f.turn < |ChainOfCall(env, f.call).methods|
    modifies f.ctx`shared, f.ctx.request`body, f.ctx.request`thrownErrors
    modifies f.ctx.response`headers, f.ctx.response`statusCode, f.ctx.response`hasErrors, f.ctx.response`body
    ensures after == f.(turn := f.turn + 1) && FlightOk(env, after)
  {
    hide Step, GetExecutionChain;
    var methods := f.ctx.executionChain.methods;
    assert methods[..f.turn + 1][..f.turn] == methods[..f.turn];
    RunOne(f.ctx, methods[f.turn]);
    after := f.(turn := f.turn + 1);
  }

  /** Two calls in flight share no object; neither does a call in flight and an answer given. */
  lemma FlightsAreApart(pool: Pool, flights: seq<Flight>, answers: seq<Answer>, env: PoolEnv, at: nat)
    requires pool.Valid() && FlightsOk(env, pool, flights) && AnswersOk(env, pool, answers) && at < |flights|
    ensures var f := flights[at];
            && f.ctx in pool.live && f.ctx !in pool.contextPool && f.ctx.response !in pool.returned
            && (forall c :: c in pool.live && c != f.ctx ==> c.request != f.ctx.request && c.response != f.ctx.response)
            && (forall i :: 0 <= i < |flights| && i != at ==>
                  flights[i].ctx in pool.live && flights[i].ctx != f.ctx
                  && flights[i].ctx.request != f.ctx.request && flights[i].ctx.response != f.ctx.response)
            && (forall i :: 0 <= i < |answers| ==> answers[i].response != f.ctx.response)
  {
    hide FlightOk, AnswerOk, NoDup;
    InPool(pool.contextPool, flights[at].ctx);
  }

  /** Gives one call in flight its next turn. */
  method TakeTurn(
    pool: Pool, env: PoolEnv, flights: seq<Flight>, at: nat, ghost answers: seq<Answer>) returns (next: seq<Flight>)
    requires pool.Valid() && FlightsOk(env, pool, flights) && AnswersOk(env, pool, answers) && at < |flights|
    modifies flights[at].ctx`shared, flights[at].ctx.request`body, flights[at].ctx.request`thrownErrors
    modifies flights[at].ctx.response`headers, flights[at].ctx.response`statusCode
    modifies flights[at].ctx.response`hasErrors, flights[at].ctx.response`body
    ensures pool.Valid() && FlightsOk(env, pool, next) && AnswersOk(env, pool, answers)
    ensures next == if HasTurnsLeft(env, flights[at]) then flights[at := flights[at].(turn := flights[at].turn + 1)]
        else flights
  {
    hide NoDup, Elements, ShareNothing, NoneReturned, FlightOk, AnswerOk, GetExecutionChain;
    FlightsAreApart(pool, flights, answers, env, at);
    next := flights;
    if HasTurnsLeft(env, flights[at]) {
      var after := TurnOf(env, flights[at]);
      next := flights[at := after];
    }
  }

  predicate HasTurnsLeft(env: PoolEnv, f: Flight)
  {
    GetExecutionChain(env, f.call).Ok? && f.turn < |ChainOfCall(env, f.call).methods|
  }

  lemma FinishedIsAnswer(env: PoolEnv, f: Flight)
    requires FlightOk(env, f) && !HasTurnsLeft(env, f)
    ensures AnswerOk(env, Answer(f.ctx.response, f.call))
  {
    hide GetExecutionChain, Run;
  }

  /** Answers one call whose chain has run, and releases its context. */
  method FinishCall(pool: Pool, env: PoolEnv, maxPoolSize: int, flights: seq<Flight>, at: nat, answers: seq<Answer>)
    returns (next: seq<Flight>, given: seq<Answer>)
    requires pool.Valid() && FlightsOk(env, pool, flights) && AnswersOk(env, pool, answers) && at < |flights|
    modifies pool`contextPool, pool`inFlight, pool`live, pool`returned
    modifies flights[at].ctx`response, flights[at].ctx`shared, flights[at].ctx`executionChain,
        flights[at].ctx`routesFlowRouteIds
    modifies flights[at].ctx.request`rawBody, flights[at].ctx.request`body, flights[at].ctx.request`thrownErrors
    ensures pool.Valid() && FlightsOk(env, pool, next) && AnswersOk(env, pool, given)
    ensures |pool.contextPool| ==
            if !HasTurnsLeft(env, flights[at]) && old(|pool.contextPool|) < maxPoolSize then old(|pool.contextPool|) + 1
              else old(|pool.contextPool|)
    ensures next == if HasTurnsLeft(env, flights[at]) then flights else flights[..at] + flights[at + 1..]
    ensures given == if HasTurnsLeft(env, flights[at]) then answers
        else answers + [Answer(old(flights[at].ctx.response), flights[at].call)]
    ensures pool.live <= old(pool.live)
    ensures forall c :: c in pool.live ==> c.response == old(c.response) || fresh(c.response)
  {
    hide NoDup, Elements, ShareNothing, NoneReturned, FlightOk, AnswerOk, GetExecutionChain;
    FlightsAreApart(pool, flights, answers, env, at);
    next, given := flights, answers;
    var f := flights[at];
    if HasTurnsLeft(env, f) { return; }
    FinishedIsAnswer(env, f);
    var response := f.ctx.response;
    pool.Return(f.ctx);
    if maxPoolSize > 0 { pool.ReleaseCallContext(f.ctx, maxPoolSize); }
    next := flights[..at] + flights[at + 1..];
    given := answers + [Answer(response, f.call)];
  }

  /** The schedule on paper: the calls open with their turns taken, the calls answered, the contexts pooled. */
  datatype Ledger = Ledger(open: seq<(Call, nat)>, answered: seq<Call>, pooled: nat)

  function TurnsLeft(env: PoolEnv, entry: (Call, nat)): bool {
    GetExecutionChain(env, entry.0).Ok? && entry.1 < |ChainOfCall(env, entry.0).methods|
  }

  /** A call whose chain is not found opens nothing but still uses up a pooled context. */
  function Advance(env: PoolEnv, maxPoolSize: int, l: Ledger, event: Event): Ledger {
    match event
    case Begin(call) =>
      Ledger(if GetExecutionChain(env, call).Err? then l.open else l.open + [(call, 0)], l.answered,
             if maxPoolSize > 0 && l.pooled > 0 then l.pooled - 1 else l.pooled)
    case Turn(at) =>
      if at < |l.open| && TurnsLeft(env, l.open[at]) then l.(open := l.open[at := (l.open[at].0, l.open[at].1 + 1)])
        else l
    case Finish(at) =>
      if at < |l.open| && !TurnsLeft(env, l.open[at]) then
        Ledger(l.open[..at] + l.open[at + 1..], l.answered + [l.open[at].0], if l.pooled < maxPoolSize then l.pooled + 1
          else l.pooled)
      else l
  }

  function Advanced(env: PoolEnv, maxPoolSize: int, schedule: seq<Event>): Ledger {
    if schedule == [] then Ledger([], [], 0)
    else Advance(env, maxPoolSize, Advanced(env, maxPoolSize, schedule[..|schedule| - 1]), schedule[|schedule| - 1])
  }

  /** However calls come and go, the pool keeps to its limit. */
  lemma {:induction false} PoolKeepsToItsLimit(env: PoolEnv, maxPoolSize: int, schedule: seq<Event>)
    ensures Advanced(env, maxPoolSize, schedule).pooled <= if 0 < maxPoolSize then maxPoolSize else 0
  {
    hide GetExecutionChain;
    if schedule != [] { PoolKeepsToItsLimit(env, maxPoolSize, schedule[..|schedule| - 1]); }
  }

  function LedgerOf(flights: seq<Flight>, answers: seq<Answer>, pooled: nat): (l: Ledger)
    ensures l.pooled == pooled
    ensures |l.open| == |flights|
  {
    Ledger(seq(|flights|, i requires 0 <= i < |flights| => (flights[i].call, flights[i].turn)),
           seq(|answers|, i requires 0 <= i < |answers| => answers[i].call), pooled)
  }

  lemma BeginIsOnPaper(
    env: PoolEnv, maxPoolSize: int, call: Call, flights: seq<Flight>, next: seq<Flight>, answers: seq<Answer>,
    l: Ledger, pooled: nat)
    requires l == LedgerOf(flights, answers, l.pooled)
    requires pooled == if maxPoolSize > 0 && l.pooled > 0 then l.pooled - 1 else l.pooled
    requires if GetExecutionChain(env, call).Err? then next == flights
             else && |next| == |flights| + 1 && next[..|flights|] == flights
                  && next[|flights|].call == call && next[|flights|].turn == 0
    ensures LedgerOf(next, answers, pooled) == Advance(env, maxPoolSize, l, Begin(call))
  {
    hide GetExecutionChain;
    assert GetExecutionChain(env, call).Ok? ==> next == flights + [next[|flights|]];
    assert LedgerOf(next, answers, pooled).open == Advance(env, maxPoolSize, l, Begin(call)).open;
  }

  lemma TurnIsOnPaper(env: PoolEnv, maxPoolSize: int, flights: seq<Flight>, answers: seq<Answer>, l: Ledger, at: nat)
    requires l == LedgerOf(flights, answers, l.pooled) && at < |flights|
    ensures HasTurnsLeft(env, flights[at]) == TurnsLeft(env, l.open[at])
    ensures LedgerOf(if HasTurnsLeft(env, flights[at]) then flights[at := flights[at].(turn := flights[at].turn + 1)]
        else flights, answers, l.pooled)
            == Advance(env, maxPoolSize, l, Turn(at))
  {
    hide GetExecutionChain;
    var next := if HasTurnsLeft(env, flights[at]) then flights[at := flights[at].(turn := flights[at].turn + 1)]
      else flights;
    assert LedgerOf(next, answers, l.pooled).open == Advance(env, maxPoolSize, l, Turn(at)).open;
  }

  lemma FinishIsOnPaper(
    env: PoolEnv, maxPoolSize: int, flights: seq<Flight>, answers: seq<Answer>, l: Ledger, at: nat,
    response: MionResponse)
    requires l == LedgerOf(flights, answers, l.pooled) && at < |flights|
    ensures var left := HasTurnsLeft(env, flights[at]);
            LedgerOf(if left then flights else flights[..at] + flights[at + 1..],
                     if left then answers else answers + [Answer(response, flights[at].call)],
                     if !left && l.pooled < maxPoolSize then l.pooled + 1 else l.pooled)
            == Advance(env, maxPoolSize, l, Finish(at))
  {
    hide GetExecutionChain;
    if !HasTurnsLeft(env, flights[at]) {
      var next, given := flights[..at] + flights[at + 1..], answers + [Answer(response, flights[at].call)];
      var after := Advance(env, maxPoolSize, l, Finish(at));
      assert LedgerOf(next, given, after.pooled).open == after.open;
      assert LedgerOf(next, given, after.pooled).answered == after.answered;
    }
  }

  /** Serves any schedule of calls: accepting, running and finishing them in any interleaving. Calls open,
      turns taken, answers given and contexts pooled are as on paper; every answer is what its call gives when
      it runs alone, and stays so; every call still in flight is as far as it would be alone. */
  method Serve(
    env: PoolEnv, maxPoolSize: int, schedule: seq<Event>)
    returns (pool: Pool, flights: seq<Flight>, answers: seq<Answer>)
    ensures pool.Valid() && FlightsOk(env, pool, flights) && AnswersOk(env, pool, answers)
    ensures LedgerOf(flights, answers, |pool.contextPool|) == Advanced(env, maxPoolSize, schedule)
  {
    hide NoDup, Elements, ShareNothing, NoneReturned, FlightOk, AnswerOk, GetExecutionChain, Pool.Valid, FlightsOk,
      AnswersOk, LedgerOf, Advance, Advanced, HasTurnsLeft, TurnsLeft;
    pool := new Pool();
    flights, answers := [], [];
    NothingLive(pool);
    NothingOpen(env, maxPoolSize, pool);
    for i := 0 to |schedule|
      invariant pool.Valid() && FlightsOk(env, pool, flights) && AnswersOk(env, pool, answers)
      invariant LedgerOf(flights, answers, |pool.contextPool|) == Advanced(env, maxPoolSize, schedule[..i])
      invariant fresh(pool) && forall c :: c in pool.live ==> fresh(c) && fresh(c.request) && fresh(c.response)
    {
      AdvancedStep(env, maxPoolSize, schedule, i);
      ghost var l := LedgerOf(flights, answers, |pool.contextPool|);
      match schedule[i]
      case Begin(call) =>
        if pool.contextPool != [] { PoppedIsApart(pool, flights, answers, env); }
        ghost var was := flights;
        flights := BeginCall(pool, env, maxPoolSize, call, flights, answers);
        BeginIsOnPaper(env, maxPoolSize, call, was, flights, answers, l, |pool.contextPool|);
      case Turn(at) =>
        if at < |flights| {
          FlightsAreApart(pool, flights, answers, env, at);
          TurnIsOnPaper(env, maxPoolSize, flights, answers, l, at);
          flights := TakeTurn(pool, env, flights, at, answers);
        } else {
          NoSuchCall(env, maxPoolSize, l, at);
        }
      case Finish(at) =>
        if at < |flights| {
          FlightsAreApart(pool, flights, answers, env, at);
          FinishIsOnPaper(env, maxPoolSize, flights, answers, l, at, flights[at].ctx.response);
          flights, answers := FinishCall(pool, env, maxPoolSize, flights, at, answers);
        } else {
          NoSuchCall(env, maxPoolSize, l, at);
        }
    }
    assert schedule[..|schedule|] == schedule;
  }

  lemma AdvancedStep(env: PoolEnv, maxPoolSize: int, schedule: seq<Event>, i: nat)
    requires i < |schedule|
    ensures Advanced(env, maxPoolSize, schedule[..i + 1]) ==
        Advance(env, maxPoolSize, Advanced(env, maxPoolSize, schedule[..i]), schedule[i])
  {
    assert schedule[..i + 1][..i] == schedule[..i];
  }

  lemma NoSuchCall(env: PoolEnv, maxPoolSize: int, l: Ledger, at: nat)
    requires |l.open| <= at
    ensures Advance(env, maxPoolSize, l, Turn(at)) == l && Advance(env, maxPoolSize, l, Finish(at)) == l
  {
  }

  lemma NothingOpen(env: PoolEnv, maxPoolSize: int, pool: Pool)
    ensures LedgerOf([], [], 0) == Advanced(env, maxPoolSize, [])
    ensures FlightsOk(env, pool, []) && AnswersOk(env, pool, [])
  {
  }

  lemma NothingLive(pool: Pool)
    requires pool.Valid() && pool.contextPool == [] && pool.inFlight == {}
    ensures pool.live == {}
  {
  }
}
