/** What a turn of the loop does, said of what was sent, what the handler did and what it threw. */
module TurnOutcomes {
  import opened Basics
  import opened Context
  import opened RouteTree
  import opened Dispatch

  // ---------- Status, record and header ----------

  /** The status an error answers with: its own, or 422 when it has none or is no protocol error. */
  ghost predicate AnswersWith(status: nat, thrown: Thrown) {
    match thrown
    case Rpc(RpcError(_, Some(own), _)) => status == own
    case Rpc(RpcError(_, None, _)) => status == 422
    case Other(_) => status == 422
  }

  /** What is recorded of an error: a protocol error as it is, anything else as an unknown error. */
  ghost predicate IsRecordOf(error: RpcError, thrown: Thrown) {
    match thrown
    case Rpc(own) => error == own
    case Other(tag) => error == RpcError("unknown-error", Some(422), tag)
  }

  /** Recording one error: the status, the record, the flag, and the header of a first error. */
  lemma RecordingAnswers(s: State, id: string, thrown: Thrown)
    ensures var after := Failed(s, id, thrown);
            && after.hasErrors && AnswersWith(after.statusCode, thrown)
            && after.thrown.Keys == s.thrown.Keys + {id} && IsRecordOf(after.thrown[id], thrown)
            && (forall other :: other in s.thrown && other != id ==> after.thrown[other] == s.thrown[other])
            && (s.hasErrors ==> after.headers == s.headers)
            && (!s.hasErrors ==> after.headers == s.headers["x-rpc-error" := after.thrown[id].errorType])
            && after.reqBody == s.reqBody && after.respBody == s.respBody && after.shared == s.shared
  {
  }

  /** After a run the status is that of the last error raised, and each id keeps the last error raised under it. */
  lemma RunAnswersWithTheLast(rq: Incoming, s: State, chain: seq<Executable>)
    ensures var all, after := AllRaised(rq, s, chain), Run(rq, s, chain);
            && (all == [] ==> after.statusCode == s.statusCode && after.thrown.Keys == s.thrown.Keys)
            && (all != [] ==> AnswersWith(after.statusCode, all[|all| - 1].1))
            && forall i :: 0 <= i < |all| && (forall j :: i < j < |all| ==> all[j].0 != all[i].0) ==>
                 all[i].0 in after.thrown && IsRecordOf(after.thrown[all[i].0], all[i].1)
  {
    hide Run, AllRaised, AnswersWith, IsRecordOf;
    RunErrors(rq, s, chain);
    var all, after := AllRaised(rq, s, chain), Run(rq, s, chain);
    forall thrown { StatusAnswers(thrown); }
    forall i | 0 <= i < |all| && (forall j :: i < j < |all| ==> all[j].0 != all[i].0)
      ensures all[i].0 in after.thrown && IsRecordOf(after.thrown[all[i].0], all[i].1)
    {
      assert all[i].0 !in ReportIds(all[i + 1..]);
      assert Recorded(after, all[i]);
    }
    assert ReportIds([]) == {};
  }

  lemma StatusAnswers(thrown: Thrown)
    ensures AnswersWith(StatusOf(AsRpcError(thrown)), thrown) && IsRecordOf(AsRpcError(thrown), thrown)
  {
  }

  /** The error header is that of the first error raised, for handlers that leave it alone. */
  lemma HeaderIsOfTheFirst(rq: Incoming, s: State, chain: seq<Executable>)
    requires !s.hasErrors && AllRaised(rq, s, chain) != [] && forall e :: e in chain ==> LeavesErrorHeader(e)
    ensures var headers := Run(rq, s, chain).headers;
            && "x-rpc-error" in headers
            && match AllRaised(rq, s, chain)[0].1
               case Rpc(error) => headers["x-rpc-error"] == error.errorType
               case Other(_) => headers["x-rpc-error"] == "unknown-error"
  {
    hide LeavesErrorHeader, Run, AllRaised;
    HeaderNamesFirstError(rq, s, chain);
  }

  // ---------- When a handler is called, and with what ----------

  /** The params the request sends for a method: none, or a falsy value, is an empty list. */
  ghost predicate Sends(s: State, id: string, params: Value) {
    if id in s.reqBody && s.reqBody[id] != Undefined && !s.reqBody[id].Falsy? then params == s.reqBody[id]
    else params == List([])
  }

  /** The params a method is given: those sent, decoded unless the body is binary or there is nothing to decode. */
  ghost predicate IsGiven(rq: Incoming, s: State, e: Executable, params: Value) {
    exists sent :: Sends(s, e.id, sent) &&
      if rq.isBinary || e.codec.restore.None? then params == sent else e.codec.restore.value(sent) == Ok(params)
  }

  lemma GivenIs(rq: Incoming, s: State, e: Executable, params: Value)
    ensures IsGiven(rq, s, e, params) <==>
              if rq.isBinary || e.codec.restore.None? then params == ParamsOf(s, e.id)
              else e.codec.restore.value(ParamsOf(s, e.id)) == Ok(params)
  {
    var sent := ParamsOf(s, e.id);
    assert Sends(s, e.id, sent);
  }

  lemma PickedIs(rq: Incoming, e: Executable, headers: map<string, string>)
    ensures ArePicked(rq, e, headers) <==> headers == PickHeaders(e.headerNames, rq.headers)
  {
    var picked := PickHeaders(e.headerNames, rq.headers);
    if ArePicked(rq, e, headers) { assert headers == picked; }
  }

  /** What the gate asks of a validating method's params. */
  ghost predicate Passes(e: Executable, params: Value) {
    e.validateParams && e.codec.isType.Some? ==>
      && e.codec.isType.value(params)
      && (e.strictTypes && e.codec.hasUnknownKeys.Some? ==> !e.codec.hasUnknownKeys.value(params))
  }

  /** The headers a headers middleFn is given: those it names that are there and not empty. */
  ghost predicate ArePicked(rq: Incoming, e: Executable, headers: map<string, string>) {
    forall name :: if name in e.headerNames && name in rq.headers && rq.headers[name] != ""
                   then name in headers && headers[name] == rq.headers[name] else name !in headers
  }

  /** Which handlers are called with which arguments: those that run after an error only if they are told to; a raw
      middleFn always and with none; a route or middleFn when its params decode and pass; a headers middleFn when also
      its headers are of the declared type. */
  lemma CalledExactlyWhen(rq: Incoming, s: State, e: Executable, args: Args)
    ensures CalledWith(rq, s, e) == Some(args) <==>
              && (s.hasErrors ==> e.runOnError)
              && match args
                 case NoArgs => e.kind.RawMiddleFn?
                 case Params(params) =>
                   (e.kind.Route? || e.kind.MiddleFn?) && IsGiven(rq, s, e, params) && Passes(e, params)
                 case WithHeaders(headers, params) =>
                   && e.kind.HeadersMiddleFn? && ArePicked(rq, e, headers) && e.headersAreType(headers)
                   && IsGiven(rq, s, e, params) && Passes(e, params)
  {
    hide IsGiven, ArePicked, PickHeaders, ParamsOf;
    match args
    case NoArgs =>
    case Params(params) => GivenIs(rq, s, e, params);
    case WithHeaders(headers, params) =>
      GivenIs(rq, s, e, params);
      PickedIs(rq, e, headers);
  }

  /** A turn that calls no handler raises nothing if it is skipped, and one error under its own id otherwise: its
      params did not decode, or they or its headers did not pass. */
  lemma RefusedTurnRaises(rq: Incoming, s: State, e: Executable)
    requires CalledWith(rq, s, e).None?
    ensures var raised := Raised(rq, s, e);
            if s.hasErrors && !e.runOnError then raised == [] && Step(rq, s, e) == s
            else
              && |raised| == 1 && raised[0].0 == e.id && raised[0].1.Rpc? && raised[0].1.error.status == Some(422)
              && raised[0].1.error.errorType ==
                 if exists params :: IsGiven(rq, s, e, params) then "validation-error" else "serialization-error"
  {
    hide IsGiven, ParamsOf, PickHeaders;
    forall params
      ensures IsGiven(rq, s, e, params) <==>
                if rq.isBinary || e.codec.restore.None? then params == ParamsOf(s, e.id)
                else e.codec.restore.value(ParamsOf(s, e.id)) == Ok(params)
    {
      GivenIs(rq, s, e, params);
    }
    if e.codec.restore.Some? && e.codec.restore.value(ParamsOf(s, e.id)).Ok? {
      assert IsGiven(rq, s, e, e.codec.restore.value(ParamsOf(s, e.id)).value)
        || IsGiven(rq, s, e, ParamsOf(s, e.id));
    } else {
      assert e.codec.restore.None? || rq.isBinary ==> IsGiven(rq, s, e, ParamsOf(s, e.id));
    }
  }

  // ---------- What becomes of what a handler does ----------

  /** What a called handler sees: the state as it is, its own params decoded. */
  ghost predicate SeenBy(rq: Incoming, s: State, e: Executable, seen: State) {
    && seen == s.(reqBody := seen.reqBody)
    && (e.kind.RawMiddleFn? || rq.isBinary || e.codec.restore.None? ==> seen == s)
    && (!e.kind.RawMiddleFn? && !rq.isBinary && e.codec.restore.Some? ==>
          exists params :: IsGiven(rq, s, e, params) && seen.reqBody == s.reqBody[e.id := params])
  }

  /** A turn that calls its handler: what the handler wrote stays, what it reported and threw is raised, and a value
      it returned goes under its id in the body if it returns data, a header subset into the headers. */
  lemma CalledTurnLeaves(rq: Incoming, s: State, e: Executable) returns (seen: State)
    requires CalledWith(rq, s, e).Some?
    ensures SeenBy(rq, s, e, seen)
    ensures var re, after := e.handler(seen, CalledWith(rq, s, e).value), Step(rq, s, e);
            && Raised(rq, s, e) == re.reports + (match re.outcome case Ok(_) => [] case Err(thrown) => [(e.id, thrown)])
            && after.reqBody == re.reqBody && after.shared == re.shared
            && after.respBody ==
                 (if re.outcome.Ok? && re.outcome.value != Undefined && e.hasReturnData
                    && !(e.headersReturn && re.outcome.value.HeadersSubset?)
                  then re.respBody[e.id := re.outcome.value] else re.respBody)
            && (re.reports == [] && re.outcome.Ok? ==>
                  forall name :: HeaderAfter(re.headers, e, re.outcome.value, name) == At(after.headers, name))
  {
    hide IsGiven, ParamsOf, PickHeaders, Reported, Accepts;
    seen := Prepared(rq, s, e).0;
    PreparedIsSeen(rq, s, e);
    var re := e.handler(seen, CalledWith(rq, s, e).value);
    var wrote := seen.(reqBody := re.reqBody, respBody := re.respBody, headers := re.headers, shared := re.shared);
    ReportedKeepsTheRest(wrote, re.reports);
    hide Prepared;
  }

  lemma PreparedIsSeen(rq: Incoming, s: State, e: Executable)
    requires Prepared(rq, s, e).1.Ok?
    ensures SeenBy(rq, s, e, Prepared(rq, s, e).0)
  {
    hide IsGiven, ParamsOf, PickHeaders, Accepts;
    if !e.kind.RawMiddleFn? && !rq.isBinary && e.codec.restore.Some? {
      GivenIs(rq, s, e, e.codec.restore.value(ParamsOf(s, e.id)).value);
    }
  }

  function At<V>(table: map<string, V>, name: string): Option<V> {
    if name in table then Some(table[name]) else None
  }

  /** A header after a result: the result's, if the method returns headers and the name has a value, else the old. */
  function HeaderAfter(headers: map<string, string>, e: Executable, result: Value, name: string): Option<string> {
    if e.hasReturnData && e.headersReturn && result.HeadersSubset? && name in result.headers
      && result.headers[name].Some?
    then result.headers[name] else At(headers, name)
  }

  lemma {:induction false} ReportedKeepsTheRest(s: State, reports: seq<Report>)
    ensures var after := Reported(s, reports);
            after.reqBody == s.reqBody && after.respBody == s.respBody && after.shared == s.shared
    ensures reports == [] ==> Reported(s, reports) == s
  {
    if reports != [] { ReportedKeepsTheRest(s, reports[..|reports| - 1]); }
  }
}
