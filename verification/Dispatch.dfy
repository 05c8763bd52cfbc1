/** Running a chain: which methods run, what they are given, and what becomes of every error. */
module Dispatch {
  import opened Basics
  import opened Context
  import opened RouteTree

  // ---------- One step, as a function of the state ----------

  function AsRpcError(thrown: Thrown): RpcError {
    match thrown
    case Rpc(error) => error
    case Other(tag) => RpcError("unknown-error", Some(UNEXPECTED_ERROR), tag)
  }

  function StatusOf(error: RpcError): nat {
    if error.status.Some? then error.status.value else UNEXPECTED_ERROR
  }

  /** Recording an error under a method's id. Only the first one sets the error header. */
  function Failed(s: State, id: string, thrown: Thrown): State {
    var error := AsRpcError(thrown);
    s.(headers := if s.hasErrors then s.headers else s.headers[ERROR_HEADER := error.errorType],
       statusCode := StatusOf(error),
       hasErrors := true,
       thrown := s.thrown[id := error])
  }

  type Report = (string, Thrown)

  function Reported(s: State, reports: seq<Report>): State {
    if reports == [] then s
    else Failed(Reported(s, reports[..|reports| - 1]), reports[|reports| - 1].0, reports[|reports| - 1].1)
  }

  function ParamsOf(s: State, id: string): Value {
    if id in s.reqBody && !s.reqBody[id].Undefined? && !s.reqBody[id].Falsy? then s.reqBody[id] else List([])
  }

  /** The parameters as the handler will see them, written back when they were decoded. */
  function Deserialized(rq: Incoming, s: State, e: Executable): (State, Result<Value, Thrown>) {
    var params := ParamsOf(s, e.id);
    if rq.isBinary || e.codec.restore.None? then (s, Ok(params))
    else
      match e.codec.restore.value(params)
      case Err(tag) => (s, Err(Rpc(RpcError("serialization-error", Some(UNEXPECTED_ERROR), tag))))
      case Ok(value) => (s.(reqBody := s.reqBody[e.id := value]), Ok(value))
  }

  predicate KnownKeysOnly(e: Executable, params: Value) {
    e.strictTypes && e.codec.hasUnknownKeys.Some? ==> !e.codec.hasUnknownKeys.value(params)
  }

  /** The validation gate. Without a type check the unknown-key check is not reached either. */
  predicate Accepts(e: Executable, params: Value) {
    e.codec.isType.None? || (e.codec.isType.value(params) && KnownKeysOnly(e, params))
  }

  function PickHeaders(names: seq<string>, headers: map<string, string>): map<string, string> {
    map name | name in names && name in headers && headers[name] != "" :: headers[name]
  }

  const VALIDATION_ERROR: Thrown := Rpc(RpcError("validation-error", Some(UNEXPECTED_ERROR), 0))

  function Prepared(rq: Incoming, s: State, e: Executable): (State, Result<Args, Thrown>) {
    if e.kind.RawMiddleFn? then (s, Ok(NoArgs))
    else
      var (now, params) := Deserialized(rq, s, e);
      if params.Err? then (now, Err(params.error))
      else if e.kind.HeadersMiddleFn? && !e.headersAreType(PickHeaders(e.headerNames, rq.headers)) then
        (now, Err(VALIDATION_ERROR))
      else if e.validateParams && !Accepts(e, params.value) then (now, Err(VALIDATION_ERROR))
      else if e.kind.HeadersMiddleFn? then
        (now, Ok(WithHeaders(PickHeaders(e.headerNames, rq.headers), params.value)))
      else (now, Ok(Params(params.value)))
  }

  function Overlay(headers: map<string, string>, subset: map<string, Option<string>>): map<string, string> {
    headers + map name | name in subset && subset[name].Some? :: subset[name].value
  }

  function Stored(s: State, e: Executable, result: Value): State {
    if result.Undefined? || !e.hasReturnData then s
    else if e.headersReturn && result.HeadersSubset? then s.(headers := Overlay(s.headers, result.headers))
    else s.(respBody := s.respBody[e.id := result])
  }

  function Reacted(s: State, re: Reaction): State {
    Reported(s.(reqBody := re.reqBody, respBody := re.respBody, headers := re.headers, shared := re.shared), re.reports)
  }

  predicate Attempted(s: State, e: Executable) {
    !s.hasErrors || e.runOnError
  }

  function Step(rq: Incoming, s: State, e: Executable): State {
    if !Attempted(s, e) then s
    else
      var (now, args) := Prepared(rq, s, e);
      if args.Err? then Failed(now, e.id, args.error)
      else
        var re := e.handler(now, args.value);
        if re.outcome.Err? then Failed(Reacted(now, re), e.id, re.outcome.error)
        else Stored(Reacted(now, re), e, re.outcome.value)
  }

  function Run(rq: Incoming, s: State, chain: seq<Executable>): State {
    if chain == [] then s else Step(rq, Run(rq, s, chain[..|chain| - 1]), chain[|chain| - 1])
  }

  // ---------- The methods that change the call ----------

  /** Records an error and stores it for the response. */
  method OnExecutableError(context: CallContext, id: string, err: Thrown)
    modifies context.request`thrownErrors, context.response`headers, context.response`statusCode,
        context.response`hasErrors
    ensures context.View() == Failed(old(context.View()), id, err)
  {
    var response := context.response;
    var rpcError := AsRpcError(err);
    if !response.hasErrors { response.headers := response.headers[ERROR_HEADER := rpcError.errorType]; }
    response.statusCode := if rpcError.status.Some? then rpcError.status.value else UNEXPECTED_ERROR;
    response.hasErrors := true;
    context.request.thrownErrors := context.request.thrownErrors[id := rpcError];
  }

  method DeserializeBodyParamsOrThrow(context: CallContext, e: Executable) returns (r: Result<Value, Thrown>)
    modifies context.request`body
    ensures (context.View(), r) == Deserialized(context.In(), old(context.View()), e)
  {
    var request := context.request;
    var params := if e.id in request.body then request.body[e.id] else Undefined;
    if params.Undefined? || params.Falsy? { params := List([]); }
    if request.bodyType.Binary? { return Ok(params); }
    if e.codec.restore.None? { return Ok(params); }
    var restored := e.codec.restore.value(params);
    if restored.Err? { return Err(Rpc(RpcError("serialization-error", Some(UNEXPECTED_ERROR), restored.error))); }
    request.body := request.body[e.id := restored.value];
    r := Ok(restored.value);
  }

  method ValidateParametersOrThrow(params: Value, e: Executable) returns (thrown: Option<Thrown>)
    ensures thrown == if Accepts(e, params) then None else Some(VALIDATION_ERROR)
  {
    if e.codec.isType.None? { return None; }
    if !e.codec.isType.value(params) { return Some(VALIDATION_ERROR); }
    thrown := RejectUnknownKeysOrThrow(params, e);
  }

  method RejectUnknownKeysOrThrow(params: Value, e: Executable) returns (thrown: Option<Thrown>)
    ensures thrown == if KnownKeysOnly(e, params) then None else Some(VALIDATION_ERROR)
  {
    if !e.strictTypes { return None; }
    if e.codec.hasUnknownKeys.None? { return None; }
    if e.codec.hasUnknownKeys.value(params) { return Some(VALIDATION_ERROR); }
    thrown := None;
  }

  method HeadersFor(names: seq<string>, headers: map<string, string>) returns (picked: map<string, string>)
    ensures picked == PickHeaders(names, headers)
  {
    picked := map[];
    for i := 0 to |names|
      invariant picked == PickHeaders(names[..i], headers)
    {
      var name := names[i];
      if name in headers && headers[name] != "" { picked := picked[name := headers[name]]; }
    }
    assert names[..|names|] == names;
  }

  /** Gets a method its arguments, or the reason it is not called. */
  method PrepareCall(context: CallContext, e: Executable) returns (r: Result<Args, Thrown>)
    modifies context.request`body
    ensures (context.View(), r) == Prepared(context.In(), old(context.View()), e)
  {
    hide Accepts, PickHeaders, Deserialized;
    if e.kind.RawMiddleFn? { return Ok(NoArgs); }
    var params := DeserializeBodyParamsOrThrow(context, e);
    if params.Err? { return Err(params.error); }
    var headers := map[];
    if e.kind.HeadersMiddleFn? {
      headers := HeadersFor(e.headerNames, context.request.headers);
      if !e.headersAreType(headers) { return Err(VALIDATION_ERROR); }
    }
    if e.validateParams {
      var thrown := ValidateParametersOrThrow(params.value, e);
      if thrown.Some? { return Err(thrown.value); }
    }
    r := Ok(if e.kind.HeadersMiddleFn? then WithHeaders(headers, params.value) else Params(params.value));
  }

  /** Calls the handler: its writes, then the errors it reports, in order. */
  method CallHandler(context: CallContext, e: Executable, args: Args) returns (outcome: Result<Value, Thrown>)
    modifies context`shared, context.request`body, context.request`thrownErrors
    modifies context.response`headers, context.response`statusCode, context.response`hasErrors, context.response`body
    ensures var re := e.handler(old(context.View()), args);
            outcome == re.outcome && context.View() == Reacted(old(context.View()), re)
  {
    hide Failed;
    var re := e.handler(context.View(), args);
    context.request.body, context.response.body := re.reqBody, re.respBody;
    context.response.headers, context.shared := re.headers, re.shared;
    ghost var written := context.View();
    for i := 0 to |re.reports|
      invariant context.View() == Reported(written, re.reports[..i])
    {
      assert re.reports[..i + 1][..i] == re.reports[..i];
      OnExecutableError(context, re.reports[i].0, re.reports[i].1);
    }
    assert re.reports[..|re.reports|] == re.reports;
    outcome := re.outcome;
  }

  function OverlayOf(
    headers: map<string, string>, subset: map<string, Option<string>>, done: set<string>): map<string, string>
  {
    headers + Given(subset, done)
  }

  /** The values present under some of the names. */
  function Given(subset: map<string, Option<string>>, done: set<string>): map<string, string> {
    map name | name in subset && name in done && subset[name].Some? :: subset[name].value
  }

  lemma OverlayStep(headers: map<string, string>, subset: map<string, Option<string>>, done: set<string>, name: string)
    requires name in subset && name !in done
    ensures OverlayOf(headers, subset, done + {name}) ==
            if subset[name].Some? then OverlayOf(headers, subset, done)[name := subset[name].value]
            else OverlayOf(headers, subset, done)
  {
    var some, more := Given(subset, done), Given(subset, done + {name});
    if subset[name].Some? {
      assert more == some[name := subset[name].value];
    } else {
      assert more == some;
    }
  }

  lemma OverlayEnds(headers: map<string, string>, subset: map<string, Option<string>>)
    ensures OverlayOf(headers, subset, {}) == headers
    ensures OverlayOf(headers, subset, subset.Keys) == Overlay(headers, subset)
  {
    assert Given(subset, subset.Keys) == (map name | name in subset && subset[name].Some? :: subset[name].value);
  }

  method OverlayHeaders(response: MionResponse, subset: map<string, Option<string>>)
    modifies response`headers
    ensures response.headers == Overlay(old(response.headers), subset)
  {
    hide OverlayOf, Overlay;
    OverlayEnds(response.headers, subset);
    var names := subset.Keys;
    ghost var done: set<string> := {};
    while names != {}
      invariant names + done == subset.Keys && names !! done
      invariant response.headers == OverlayOf(old(response.headers), subset, done)
      decreases |names|
    {
      var name :| name in names;
      OverlayStep(old(response.headers), subset, done, name);
      names, done := names - {name}, done + {name};
      if subset[name].Some? { response.headers := response.headers[name := subset[name].value]; }
    }
    assert done == subset.Keys;
  }

  /** Puts a result where it belongs: nowhere, in the headers, or in the body under the method's id. */
  method StoreResult(context: CallContext, e: Executable, result: Value)
    modifies context.response`headers, context.response`body
    ensures context.View() == Stored(old(context.View()), e, result)
  {
    var response := context.response;
    if result.Undefined? || !e.hasReturnData { return; }
    if e.headersReturn && result.HeadersSubset? {
      OverlayHeaders(response, result.headers);
      return;
    }
    response.body := response.body[e.id := result];
  }

  /** One turn of the loop. */
  method RunOne(context: CallContext, e: Executable)
    modifies context`shared, context.request`body, context.request`thrownErrors
    modifies context.response`headers, context.response`statusCode, context.response`hasErrors, context.response`body
    ensures context.View() == Step(old(context.In()), old(context.View()), e)
  {
    hide Prepared, Failed, Reacted, Stored;
    if context.response.hasErrors && !e.runOnError { return; }
    var args := PrepareCall(context, e);
    if args.Err? {
      OnExecutableError(context, e.id, args.error);
      return;
    }
    var outcome := CallHandler(context, e, args.value);
    if outcome.Err? {
      OnExecutableError(context, e.id, outcome.error);
    } else {
      StoreResult(context, e, outcome.value);
    }
  }

  /** Runs a whole chain. */
  method RunExecutionChain(context: CallContext)
    modifies context`shared, context.request`body, context.request`thrownErrors
    modifies context.response`headers, context.response`statusCode, context.response`hasErrors, context.response`body
    modifies context.response`serializer
    ensures context.View() == Run(old(context.In()), old(context.View()), context.executionChain.methods)
    ensures context.response.serializer == context.executionChain.serializer
  {
    hide Step;
    var methods := context.executionChain.methods;
    context.response.serializer := context.executionChain.serializer;
    for i := 0 to |methods|
      invariant context.In() == old(context.In())
      invariant context.response.serializer == context.executionChain.serializer
      invariant context.View() == Run(context.In(), old(context.View()), methods[..i])
    {
      assert methods[..i + 1][..i] == methods[..i];
      RunOne(context, methods[i]);
    }
    assert methods[..|methods|] == methods;
  }

  // ---------- What a run does with errors ----------

  /** The errors one turn records, in order. */
  function Raised(rq: Incoming, s: State, e: Executable): seq<Report> {
    if !Attempted(s, e) then []
    else
      var (now, args) := Prepared(rq, s, e);
      if args.Err? then [(e.id, args.error)]
      else
        var re := e.handler(now, args.value);
        re.reports + if re.outcome.Err? then [(e.id, re.outcome.error)] else []
  }

  /** The errors a whole run records, in order. */
  function AllRaised(rq: Incoming, s: State, chain: seq<Executable>): seq<Report> {
    if chain == [] then []
    else
      var front := chain[..|chain| - 1];
      AllRaised(rq, s, front) + Raised(rq, Run(rq, s, front), chain[|chain| - 1])
  }

  ghost predicate SameErrors(a: State, b: State) {
    a.thrown == b.thrown && a.statusCode == b.statusCode && a.hasErrors == b.hasErrors
  }

  lemma {:induction false} ReportedConcat(s: State, a: seq<Report>, b: seq<Report>)
    ensures Reported(s, a + b) == Reported(Reported(s, a), b)
  {
    if b == [] {
      assert a + b == a;
    } else {
      ReportedConcat(s, a, b[..|b| - 1]);
      assert (a + b)[..|a + b| - 1] == a + b[..|b| - 1];
    }
  }

  lemma {:induction false} ReportedSameErrors(a: State, b: State, reports: seq<Report>)
    requires SameErrors(a, b)
    ensures SameErrors(Reported(a, reports), Reported(b, reports))
  {
    if reports != [] { ReportedSameErrors(a, b, reports[..|reports| - 1]); }
  }

  lemma ReportOne(s: State, id: string, thrown: Thrown)
    ensures Reported(s, [(id, thrown)]) == Failed(s, id, thrown)
  {
    assert [(id, thrown)][..0] == [];
  }

  /** A turn changes the error fields by recording what it raised and in no other way. */
  lemma StepRecordsErrors(rq: Incoming, s: State, e: Executable)
    ensures SameErrors(Step(rq, s, e), Reported(s, Raised(rq, s, e)))
  {
    hide Prepared, Reported;
    ReportedNothing(s);
    if Attempted(s, e) {
      var (now, args) := Prepared(rq, s, e);
      PreparedKeepsErrors(rq, s, e);
      if args.Err? {
        ReportOne(s, e.id, args.error);
      } else {
        var re := e.handler(now, args.value);
        var wrote := now.(reqBody := re.reqBody, respBody := re.respBody, headers := re.headers, shared := re.shared);
        ReportedSameErrors(wrote, s, re.reports);
        if re.outcome.Err? {
          ReportedConcat(s, re.reports, [(e.id, re.outcome.error)]);
          ReportOne(Reported(s, re.reports), e.id, re.outcome.error);
        } else {
          assert re.reports + [] == re.reports;
        }
      }
    }
  }

  lemma ReportedNothing(s: State)
    ensures Reported(s, []) == s
  {
  }

  lemma PreparedKeepsErrors(rq: Incoming, s: State, e: Executable)
    ensures Prepared(rq, s, e).0 == s.(reqBody := Prepared(rq, s, e).0.reqBody)
  {
  }

  lemma {:induction false} RunRecordsErrors(rq: Incoming, s: State, chain: seq<Executable>)
    ensures SameErrors(Run(rq, s, chain), Reported(s, AllRaised(rq, s, chain)))
  {
    hide Step, Raised;
    if chain != [] {
      var front, last := chain[..|chain| - 1], chain[|chain| - 1];
      RunRecordsErrors(rq, s, front);
      var before := Run(rq, s, front);
      StepRecordsErrors(rq, before, last);
      ReportedConcat(s, AllRaised(rq, s, front), Raised(rq, before, last));
      ReportedSameErrors(before, Reported(s, AllRaised(rq, s, front)), Raised(rq, before, last));
    }
  }

  ghost function ReportIds(reports: seq<Report>): set<string> {
    set r | r in reports :: r.0
  }

  ghost predicate Recorded(s: State, r: Report) {
    r.0 in s.thrown && s.thrown[r.0] == AsRpcError(r.1)
  }

  /** What a list of recorded errors leaves behind. */
  ghost predicate ErrorsAre(s: State, reports: seq<Report>, after: State) {
    && (after.hasErrors <==> s.hasErrors || reports != [])
    && after.statusCode == (if reports == [] then s.statusCode else StatusOf(AsRpcError(reports[|reports| - 1].1)))
    && after.thrown.Keys == s.thrown.Keys + ReportIds(reports)
    && forall i :: 0 <= i < |reports| && reports[i].0 !in ReportIds(reports[i + 1..]) ==> Recorded(after, reports[i])
  }

  lemma ReportIdsAppend(front: seq<Report>, last: Report)
    ensures ReportIds(front + [last]) == ReportIds(front) + {last.0}
  {
    var all := front + [last];
    assert all[|front|] == last;
    assert forall r :: r in all <==> r in front || r == last;
  }

  lemma ErrorsAreStep(s: State, front: seq<Report>, last: Report, mid: State)
    requires ErrorsAre(s, front, mid)
    ensures ErrorsAre(s, front + [last], Failed(mid, last.0, last.1))
  {
    hide ReportIds, AsRpcError, StatusOf;
    var all, after := front + [last], Failed(mid, last.0, last.1);
    ReportIdsAppend(front, last);
    forall i | 0 <= i < |all| && all[i].0 !in ReportIds(all[i + 1..])
      ensures Recorded(after, all[i])
    {
      if i < |front| {
        assert all[i] == front[i];
        assert all[i + 1..] == front[i + 1..] + [last];
        ReportIdsAppend(front[i + 1..], last);
      }
    }
  }

  lemma NoErrorsAre(s: State)
    ensures ErrorsAre(s, [], s)
  {
  }

  lemma {:induction false} ReportedErrorsAre(s: State, reports: seq<Report>)
    ensures ErrorsAre(s, reports, Reported(s, reports))
  {
    hide ErrorsAre, Failed;
    if reports == [] {
      NoErrorsAre(s);
    } else {
      var front, last := reports[..|reports| - 1], reports[|reports| - 1];
      ReportedErrorsAre(s, front);
      ErrorsAreStep(s, front, last, Reported(s, front));
      assert reports == front + [last];
    }
  }

  /** After any run: an error was recorded exactly when one was raised, the status is the last error's, the
      recorded ids are those that raised, and each id keeps its last error. */
  lemma RunErrors(rq: Incoming, s: State, chain: seq<Executable>)
    ensures ErrorsAre(s, AllRaised(rq, s, chain), Run(rq, s, chain))
  {
    hide Run, AllRaised, Reported, AsRpcError, StatusOf;
    var all := AllRaised(rq, s, chain);
    RunRecordsErrors(rq, s, chain);
    ReportedErrorsAre(s, all);
  }

  /** For a fresh call: errors are flagged exactly when some are recorded. */
  lemma FlagMatchesRecord(rq: Incoming, s: State, chain: seq<Executable>)
    requires !s.hasErrors && s.thrown == map[]
    ensures Run(rq, s, chain).hasErrors <==> Run(rq, s, chain).thrown != map[]
  {
    hide Run, AllRaised;
    RunErrors(rq, s, chain);
    var all, after := AllRaised(rq, s, chain), Run(rq, s, chain);
    if all != [] {
      assert all[0] in all;
      assert all[0].0 in ReportIds(all);
      assert all[0].0 in after.thrown;
    } else {
      assert after.thrown.Keys == {};
    }
  }

  // ---------- Which methods run ----------

  lemma {:induction false} AllRaisedIsEmptyIff(rq: Incoming, s: State, chain: seq<Executable>)
    ensures AllRaised(rq, s, chain) == [] <==>
            forall j :: 0 <= j < |chain| ==> Raised(rq, Run(rq, s, chain[..j]), chain[j]) == []
  {
    hide Raised, Run;
    if chain != [] {
      var n := |chain| - 1;
      AllRaisedIsEmptyIff(rq, s, chain[..n]);
      assert forall j :: 0 <= j < n ==> chain[..n][..j] == chain[..j];
    }
  }

  /** The skip rule: a method runs exactly when it runs on errors or nothing before it has raised one. */
  lemma RunsIff(rq: Incoming, s: State, chain: seq<Executable>, i: nat)
    requires i < |chain|
    ensures Attempted(Run(rq, s, chain[..i]), chain[i]) <==>
            chain[i].runOnError
              || (!s.hasErrors && forall j :: 0 <= j < i ==> Raised(rq, Run(rq, s, chain[..j]), chain[j]) == [])
  {
    hide Raised, Run, AllRaised;
    RunErrors(rq, s, chain[..i]);
    AllRaisedIsEmptyIff(rq, s, chain[..i]);
    assert forall j :: 0 <= j < i ==> chain[..i][..j] == chain[..j] && chain[..i][j] == chain[j];
  }

  // ---------- The error header ----------

  ghost predicate HeaderKept(a: map<string, string>, b: map<string, string>) {
    (ERROR_HEADER in a <==> ERROR_HEADER in b) && (ERROR_HEADER in a ==> a[ERROR_HEADER] == b[ERROR_HEADER])
  }

  /** No handler of the chain writes the error header, directly or through the headers it returns. */
  ghost predicate LeavesErrorHeader(e: Executable) {
    forall s: State, a: Args ::
      var re := e.handler(s, a);
      && HeaderKept(re.headers, s.headers)
      && (re.outcome.Ok? && re.outcome.value.HeadersSubset? ==>
            ERROR_HEADER !in re.outcome.value.headers || re.outcome.value.headers[ERROR_HEADER].None?)
  }

  ghost predicate HeaderIs(s: State, reports: seq<Report>, after: State) {
    if s.hasErrors || reports == [] then HeaderKept(after.headers, s.headers)
    else ERROR_HEADER in after.headers && after.headers[ERROR_HEADER] == AsRpcError(reports[0].1).errorType
  }

  lemma {:induction false} ReportedHeader(s: State, reports: seq<Report>)
    ensures HeaderIs(s, reports, Reported(s, reports))
  {
    if reports != [] {
      var front := reports[..|reports| - 1];
      ReportedHeader(s, front);
      ReportedErrorsAre(s, front);
    }
  }

  lemma ReportedHeaderFrom(a: State, b: State, reports: seq<Report>)
    requires HeaderKept(a.headers, b.headers) && a.hasErrors == b.hasErrors
    ensures HeaderIs(b, reports, Reported(a, reports))
  {
    ReportedHeader(a, reports);
  }

  /** The header of a turn is what recording its errors would leave. */
  lemma StepHeader(rq: Incoming, s: State, e: Executable)
    requires LeavesErrorHeader(e)
    ensures HeaderIs(s, Raised(rq, s, e), Step(rq, s, e))
  {
    hide Prepared, Reported;
    if Attempted(s, e) {
      var (now, args) := Prepared(rq, s, e);
      PreparedKeepsErrors(rq, s, e);
      if args.Err? {
      } else {
        var re := e.handler(now, args.value);
        var wrote := now.(reqBody := re.reqBody, respBody := re.respBody, headers := re.headers, shared := re.shared);
        if re.outcome.Err? {
          ReportedHeaderFrom(wrote, s, re.reports + [(e.id, re.outcome.error)]);
          ReportedConcat(wrote, re.reports, [(e.id, re.outcome.error)]);
          ReportOne(Reported(wrote, re.reports), e.id, re.outcome.error);
        } else {
          ReportedHeaderFrom(wrote, s, re.reports);
          assert re.reports + [] == re.reports;
          StoredKeepsHeader(Reported(wrote, re.reports), e, re.outcome.value);
        }
      }
    }
  }

  lemma StoredKeepsHeader(s: State, e: Executable, result: Value)
    requires result.HeadersSubset? ==> ERROR_HEADER !in result.headers || result.headers[ERROR_HEADER].None?
    ensures HeaderKept(Stored(s, e, result).headers, s.headers)
  {
  }

  /** The error header names the first error raised, whatever comes after it. */
  lemma {:induction false} HeaderNamesFirstError(rq: Incoming, s: State, chain: seq<Executable>)
    requires forall e :: e in chain ==> LeavesErrorHeader(e)
    ensures HeaderIs(s, AllRaised(rq, s, chain), Run(rq, s, chain))
  {
    hide Step, Raised, LeavesErrorHeader;
    if chain != [] {
      var front, last := chain[..|chain| - 1], chain[|chain| - 1];
      HeaderNamesFirstError(rq, s, front);
      assert last in chain;
      StepHeader(rq, Run(rq, s, front), last);
      RunErrors(rq, s, front);
    }
  }

  // ---------- What a handler is given ----------

  /** The arguments a turn calls its handler with, if it does. */
  function CalledWith(rq: Incoming, s: State, e: Executable): Option<Args> {
    if Attempted(s, e) && Prepared(rq, s, e).1.Ok? then Some(Prepared(rq, s, e).1.value) else None
  }

  ghost function ParamsIn(a: Args): Value {
    match a case NoArgs => Undefined case Params(p) => p case WithHeaders(_, p) => p
  }

  /** A validating handler sees only parameters that passed the gate, and headers of the declared type; a
      method whose parameters do not pass raises one error under its own id and changes nothing else but
      its decoded parameters. */
  lemma OnlyValidatedCalls(rq: Incoming, s: State, e: Executable)
    requires Attempted(s, e) && !e.kind.RawMiddleFn?
    ensures match CalledWith(rq, s, e)
            case Some(a) =>
              && (e.validateParams && e.codec.isType.Some? ==>
                   e.codec.isType.value(ParamsIn(a)) && KnownKeysOnly(e, ParamsIn(a)))
              && (e.kind.HeadersMiddleFn? ==> a.WithHeaders? && e.headersAreType(a.headers))
            case None =>
              && |Raised(rq, s, e)| == 1 && Raised(rq, s, e)[0].0 == e.id
              && Step(rq, s, e).respBody == s.respBody && Step(rq, s, e).shared == s.shared
              && forall id :: id in s.reqBody && id != e.id ==>
                   id in Step(rq, s, e).reqBody && Step(rq, s, e).reqBody[id] == s.reqBody[id]
  {
  }

  /** What a raw restore gives: the request's parameters as sent for a binary body or a no-op codec, else decoded. */
  function Decoded(rq: Incoming, s: State, e: Executable): Result<Value, nat> {
    if rq.isBinary || e.codec.restore.None? then Ok(ParamsOf(s, e.id)) else e.codec.restore.value(ParamsOf(s, e.id))
  }

  /** A route's handler is called exactly when its parameters decode and, if they are validated, pass. */
  lemma CalledIff(rq: Incoming, s: State, e: Executable)
    requires Attempted(s, e) && (e.kind.Route? || e.kind.MiddleFn?)
    ensures CalledWith(rq, s, e).Some? <==>
            Decoded(rq, s, e).Ok? && (e.validateParams ==> Accepts(e, Decoded(rq, s, e).value))
    ensures CalledWith(rq, s, e).Some? ==> CalledWith(rq, s, e).value == Params(Decoded(rq, s, e).value)
  {
  }

  predicate Truthy(v: Value) {
    !v.Undefined? && !v.Falsy?
  }

  /** What a method's parameters can be when they reach the gate: any truthy value of a binary request, or what the
      codec restores from a truthy value. */
  ghost predicate Deliverable(e: Executable, params: Value) {
    Truthy(params) || (e.codec.restore.Some? && exists v :: Truthy(v) && e.codec.restore.value(v) == Ok(params))
  }

  ghost predicate SeesUnknownKeys(rq: Incoming, s: State, e: Executable) {
    && e.codec.hasUnknownKeys.Some? && CalledWith(rq, s, e).Some?
    && e.codec.hasUnknownKeys.value(ParamsIn(CalledWith(rq, s, e).value))
  }

  /** Whatever can be delivered, some request delivers to a method that runs first. */
  lemma DeliveredBySome(e: Executable, params: Value, s: State) returns (rq: Incoming, sent: State)
    requires Deliverable(e, params) && !s.hasErrors && (e.kind.Route? || e.kind.MiddleFn?)
    ensures sent == s.(reqBody := sent.reqBody)
    ensures Attempted(sent, e) && Decoded(rq, sent, e) == Ok(params)
  {
    if Truthy(params) {
      rq, sent := Incoming(map[], true), s.(reqBody := map[e.id := params]);
    } else {
      var v :| Truthy(v) && e.codec.restore.value(v) == Ok(params);
      rq, sent := Incoming(map[], false), s.(reqBody := map[e.id := v]);
    }
  }

  lemma DecodedIsDeliverable(rq: Incoming, s: State, e: Executable)
    requires Decoded(rq, s, e).Ok?
    ensures Deliverable(e, Decoded(rq, s, e).value)
  {
    assert Truthy(ParamsOf(s, e.id));
  }

  /** A strict method's handler never sees an unknown key, in any state of any run, exactly when it has a type check
      or nothing that can be delivered to it has unknown keys. */
  lemma StrictTypesHoldsIff(e: Executable)
    requires e.strictTypes && e.validateParams && e.codec.hasUnknownKeys.Some? && (e.kind.Route? || e.kind.MiddleFn?)
    ensures (forall rq, s :: !SeesUnknownKeys(rq, s, e)) <==>
            (e.codec.isType.Some? || forall p :: Deliverable(e, p) ==> !e.codec.hasUnknownKeys.value(p))
  {
    hide CalledWith, Deliverable, Decoded;
    forall rq, s | SeesUnknownKeys(rq, s, e)
      ensures e.codec.isType.None? && exists p :: Deliverable(e, p) && e.codec.hasUnknownKeys.value(p)
    {
      assert Attempted(s, e) by { CalledIsAttempted(rq, s, e); }
      CalledIff(rq, s, e);
      DecodedIsDeliverable(rq, s, e);
    }
    forall p | Deliverable(e, p) && e.codec.hasUnknownKeys.value(p) && e.codec.isType.None?
      ensures exists rq, s :: SeesUnknownKeys(rq, s, e)
    {
      var rq, sent := DeliveredBySome(e, p, State(map[], map[], OK, false, map[], map[], 0));
      CalledIff(rq, sent, e);
      assert SeesUnknownKeys(rq, sent, e);
    }
  }

  lemma CalledIsAttempted(rq: Incoming, s: State, e: Executable)
    requires CalledWith(rq, s, e).Some?
    ensures Attempted(s, e)
  {
  }

  /** Without a type check the unknown-key check is skipped: a strict handler is given a value with unknown keys. */
  lemma NoTypeCheckLetsUnknownKeysThrough(e: Executable, params: Value, s: State)
    requires e.strictTypes && e.validateParams && (e.kind.Route? || e.kind.MiddleFn?)
    requires e.codec.isType.None? && e.codec.hasUnknownKeys.Some? && e.codec.hasUnknownKeys.value(params)
    requires Truthy(params) && !s.hasErrors
    ensures SeesUnknownKeys(Incoming(map[], true), s.(reqBody := map[e.id := params]), e)
  {
    hide CalledWith;
    CalledIff(Incoming(map[], true), s.(reqBody := map[e.id := params]), e);
  }
}
