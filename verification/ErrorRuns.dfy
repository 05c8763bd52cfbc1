/** From a run of the dispatch loop to the client's fatal slot. */
module ErrorRuns {
  import opened Basics
  import opened Context
  import opened ErrorOrder
  import D = Dispatch
  import R = ClientResult
  import Call = ClientCall
  import RouteTree

  function TurnOf(e: Executable): Turn {
    Turn(e.id, e.runOnError, e.hasReturnData)
  }

  function TurnsOf(chain: seq<Executable>): (exec: seq<Turn>)
    ensures |exec| == |chain|
  {
    seq(|chain|, i requires 0 <= i < |chain| => TurnOf(chain[i]))
  }

  /** The value one turn stores in the response body. */
  function StoredBy(rq: Incoming, s: State, e: Executable): Option<Value> {
    if D.CalledWith(rq, s, e).None? then None
    else
      var re := e.handler(D.Prepared(rq, s, e).0, D.CalledWith(rq, s, e).value);
      if re.outcome.Err? || re.outcome.value.Undefined? || !e.hasReturnData then None
      else if e.headersReturn && re.outcome.value.HeadersSubset? then None
      else Some(re.outcome.value)
  }

  /** What one turn leaves behind. `show` is how a stored value arrives at the client. */
  function OutcomeOf(rq: Incoming, s: State, e: Executable, show: Value -> R.Received): Outcome {
    var raised, stored := D.Raised(rq, s, e), StoredBy(rq, s, e);
    if raised != [] then Threw(D.AsRpcError(raised[|raised| - 1].1))
    else if stored.Some? then Answered(show(stored.value))
    else Quiet
  }

  function OutcomesOf(rq: Incoming, s: State, chain: seq<Executable>, show: Value -> R.Received): (outs: seq<Outcome>)
    ensures |outs| == |chain|
  {
    seq(|chain|, i requires 0 <= i < |chain| => OutcomeOf(rq, D.Run(rq, s, chain[..i]), chain[i], show))
  }

  lemma OutcomeIsAttempted(rq: Incoming, s: State, e: Executable, show: Value -> R.Received)
    ensures !OutcomeOf(rq, s, e, show).Quiet? ==> D.Attempted(s, e)
    ensures OutcomeOf(rq, s, e, show).Answered? ==> e.hasReturnData
  {
  }

  /** Every run ends as its chain can: whoever throws or answers after an error runs on errors. */
  lemma RunCanEnd(rq: Incoming, s: State, chain: seq<Executable>, show: Value -> R.Received)
    ensures CanEnd(TurnsOf(chain), OutcomesOf(rq, s, chain, show))
  {
    hide D.Raised, D.Run, D.Attempted, StoredBy;
    var outs := OutcomesOf(rq, s, chain, show);
    forall j | 0 <= j < |chain|
      ensures outs[j].Answered? ==> chain[j].hasReturnData
      ensures !outs[j].Quiet? ==>
                chain[j].runOnError || forall i :: 0 <= i < j ==> D.Raised(rq, D.Run(rq, s, chain[..i]), chain[i]) == []
    {
      OutcomeIsAttempted(rq, D.Run(rq, s, chain[..j]), chain[j], show);
      D.RunsIff(rq, s, chain, j);
    }
  }

  // ---------- What a run records is what is sent ----------

  /** A turn that raises errors under its own id only, leaves what others stored, and does not store a value besides
      an error it reports. */
  ghost predicate MindsItsOwn(rq: Incoming, s: State, e: Executable, ids: seq<string>) {
    && (forall r :: r in D.Raised(rq, s, e) ==> r.0 == e.id)
    && (StoredBy(rq, s, e).Some? ==> D.Raised(rq, s, e) == [])
    && (D.CalledWith(rq, s, e).Some? ==>
         var re := e.handler(D.Prepared(rq, s, e).0, D.CalledWith(rq, s, e).value);
         forall id :: id in ids ==> At(re.respBody, id) == At(s.respBody, id))
  }

  ghost predicate AllMindTheirOwn(rq: Incoming, s: State, chain: seq<Executable>, ids: seq<string>) {
    forall i :: 0 <= i < |chain| ==> MindsItsOwn(rq, D.Run(rq, s, chain[..i]), chain[i], ids)
  }

  function At<V>(table: map<string, V>, id: string): Option<V> {
    if id in table then Some(table[id]) else None
  }

  lemma {:induction false} OwnReports(s: State, reports: seq<D.Report>, id: string)
    requires forall r :: r in reports ==> r.0 == id
    ensures D.Reported(s, reports).thrown ==
            if reports == [] then s.thrown else s.thrown[id := D.AsRpcError(reports[|reports| - 1].1)]
  {
    if reports != [] {
      var front, last := reports[..|reports| - 1], reports[|reports| - 1];
      assert reports == front + [last];
      assert last in reports;
      OwnReports(s, front, id);
    }
  }

  /** One turn records the error it leaves behind, if any. */
  lemma TurnThrows(rq: Incoming, s: State, e: Executable, ids: seq<string>, show: Value -> R.Received)
    requires MindsItsOwn(rq, s, e, ids)
    ensures var out := OutcomeOf(rq, s, e, show);
            D.Step(rq, s, e).thrown == if out.Threw? then s.thrown[e.id := out.error] else s.thrown
  {
    hide D.Raised, D.Step, StoredBy;
    D.StepRecordsErrors(rq, s, e);
    OwnReports(s, D.Raised(rq, s, e), e.id);
  }

  lemma {:induction false} ReportsKeepBody(s: State, reports: seq<D.Report>)
    ensures D.Reported(s, reports).respBody == s.respBody
  {
    if reports != [] { ReportsKeepBody(s, reports[..|reports| - 1]); }
  }

  /** One turn stores the answer it leaves behind, if any. */
  lemma TurnAnswers(rq: Incoming, s: State, e: Executable, ids: seq<string>, show: Value -> R.Received, id: string)
    requires MindsItsOwn(rq, s, e, ids) && id in ids
    ensures var out, after := OutcomeOf(rq, s, e, show), At(D.Step(rq, s, e).respBody, id);
            if out.Answered? && e.id == id then after.Some? && out.value == show(after.value)
            else after == At(s.respBody, id)
  {
    hide D.Prepared, D.Reported;
    if D.CalledWith(rq, s, e).Some? {
      var re := e.handler(D.Prepared(rq, s, e).0, D.CalledWith(rq, s, e).value);
      var now := D.Prepared(rq, s, e).0;
      ReportsKeepBody(
        now.(reqBody := re.reqBody, respBody := re.respBody, headers := re.headers, shared := re.shared), re.reports);
    } else {
      D.PreparedKeepsErrors(rq, s, e);
    }
  }

  lemma ChainFront(rq: Incoming, s: State, chain: seq<Executable>, ids: seq<string>, show: Value -> R.Received)
    requires chain != []
    ensures var n := |chain| - 1;
            && TurnsOf(chain)[..n] == TurnsOf(chain[..n])
            && OutcomesOf(rq, s, chain, show)[..n] == OutcomesOf(rq, s, chain[..n], show)
            && (AllMindTheirOwn(rq, s, chain, ids) ==>
                 AllMindTheirOwn(rq, s, chain[..n], ids) && MindsItsOwn(rq, D.Run(rq, s, chain[..n]), chain[n], ids))
  {
    hide D.Run, MindsItsOwn, OutcomeOf;
    var n := |chain| - 1;
    assert forall i :: 0 <= i < n ==> chain[..n][..i] == chain[..i] && chain[..n][i] == chain[i];
  }

  /** The errors sent are those the run recorded. */
  lemma {:induction false} RunThrows(
    rq: Incoming, s: State, chain: seq<Executable>, ids: seq<string>, show: Value -> R.Received, id: string)
    requires AllMindTheirOwn(rq, s, chain, ids) && s.thrown == map[]
    ensures R.Find(ThrownBy(TurnsOf(chain), OutcomesOf(rq, s, chain, show)), id) == At(D.Run(rq, s, chain).thrown, id)
  {
    hide MindsItsOwn, AllMindTheirOwn, D.Step, R.Set, R.Find, OutcomeOf;
    if chain == [] {
      NothingSent<RpcError>(id);
    } else {
      var n := |chain| - 1;
      var s0, out := D.Run(rq, s, chain[..n]), OutcomesOf(rq, s, chain, show)[n];
      ChainFront(rq, s, chain, ids, show);
      RunThrows(rq, s, chain[..n], ids, show, id);
      TurnThrows(rq, s0, chain[n], ids, show);
      if out.Threw? {
        R.SetFinds(ThrownBy(TurnsOf(chain)[..n], OutcomesOf(rq, s, chain, show)[..n]), chain[n].id, out.error, id);
      }
    }
  }

  function Shown(v: Option<Value>, show: Value -> R.Received): Option<R.Received> {
    if v.Some? then Some(show(v.value)) else None
  }

  /** The answers sent are the values the run stored. */
  lemma {:induction false} RunAnswers(
    rq: Incoming, s: State, chain: seq<Executable>, ids: seq<string>, show: Value -> R.Received, id: string)
    requires AllMindTheirOwn(rq, s, chain, ids) && id in ids && id !in s.respBody
    ensures R.Find(AnsweredBy(TurnsOf(chain), OutcomesOf(rq, s, chain, show)), id) ==
            Shown(At(D.Run(rq, s, chain).respBody, id), show)
  {
    hide MindsItsOwn, AllMindTheirOwn, D.Step, R.Set, R.Find, OutcomeOf;
    if chain == [] {
      NothingSent<R.Received>(id);
    } else {
      var n := |chain| - 1;
      var s0, out := D.Run(rq, s, chain[..n]), OutcomesOf(rq, s, chain, show)[n];
      ChainFront(rq, s, chain, ids, show);
      RunAnswers(rq, s, chain[..n], ids, show, id);
      TurnAnswers(rq, s0, chain[n], ids, show, id);
      if out.Answered? {
        R.SetFinds(AnsweredBy(TurnsOf(chain)[..n], OutcomesOf(rq, s, chain, show)[..n]), chain[n].id, out.value, id);
      }
    }
  }

  // ---------- A call that is answered by a run ----------

  /** Where the order agrees, a call answered by a run holds in its fatal slot the first error of the run that nobody
      declared. */
  lemma CallHoldsFirstError(
    rq: Incoming, s: State, chain: seq<Executable>, show: Value -> R.Received, c: Call.Exchange,
    headers: string -> Option<R.Received>, skip: Option<string>, r: R.CallResult)
    requires var body := BodyOf(TurnsOf(chain), OutcomesOf(rq, s, chain, show));
             Call.IsExchange(c) && Call.Told(c, Call.Wire(body, headers, skip), r) && NoErrorInHeaders(headers)
    requires var order := R.MiddleIds(Call.MiddleFnsOf(c)) + R.RouteIds(c.routes);
             Agrees(TurnsOf(chain), R.SubIds(c.all), order)
    ensures r.fatal == FirstUndeclared(R.SubIds(c.all), TurnsOf(chain), OutcomesOf(rq, s, chain, show))
  {
    hide CanEnd, Agrees, BodyOf, NoErrorInHeaders, FirstUndeclared, OutcomeOf, Call.MiddleFnsOf, R.IsFatal, R.Fatal,
      R.CollectedErrors, R.UndeclaredOn, Call.RoutesTold, Call.NameTold, Call.NamedSub, Call.NamesAreUnused,
      Call.WrongOnWire;
    var exec, outs := TurnsOf(chain), OutcomesOf(rq, s, chain, show);
    var ids, middleIds, routeIds := R.SubIds(c.all), R.MiddleIds(Call.MiddleFnsOf(c)), R.RouteIds(c.routes);
    RunCanEnd(rq, s, chain, show);
    forall id | id in middleIds + routeIds ensures id in ids {
      if id in middleIds { Call.MergedHoldsOnlyParticipants(c, id); }
    }
    AgreedIsFirst(ids, middleIds, routeIds, exec, outs, headers, skip);
    R.FatalIsUnique(
      R.CollectedErrors(ids, BodyOf(exec, outs), headers, skip), R.UndeclaredOn(ids, BodyOf(exec, outs)), middleIds,
      routeIds, r.fatal);
  }

  // ---------- Runs whose first error is hidden ----------

  /** A middleFn without parameters that ends in this way. */
  function Ending(id: string, runOnError: bool, outcome: Result<Value, Thrown>): Executable {
    Executable(
      id, RouteTree.MiddleFn, runOnError, false, false, true, false, ParamsCodec(None, None, None), [], _ => true,
      (s: State, args: Args) => Reaction(s.reqBody, s.respBody, s.headers, s.shared, [], outcome))
  }

  lemma EndingEnds(
    rq: Incoming, s: State, id: string, runOnError: bool, outcome: Result<Value, Thrown>, show: Value -> R.Received)
    requires (!s.hasErrors || runOnError) && outcome != Ok(Undefined)
    ensures var e := Ending(id, runOnError, outcome);
            OutcomeOf(rq, s, e, show) ==
              (if outcome.Err? then Threw(D.AsRpcError(outcome.error)) else Answered(show(outcome.value)))
            && D.Step(rq, s, e).hasErrors == (s.hasErrors || outcome.Err?)
            && D.Step(rq, s, e).thrown == if outcome.Err? then s.thrown[id := D.AsRpcError(outcome.error)] else s.thrown
  {
  }

  lemma TwoTurns(rq: Incoming, s: State, a: Executable, b: Executable, show: Value -> R.Received)
    ensures D.Run(rq, s, [a, b]) == D.Step(rq, D.Step(rq, s, a), b)
    ensures OutcomesOf(rq, s, [a, b], show) == [OutcomeOf(rq, s, a, show), OutcomeOf(rq, D.Step(rq, s, a), b, show)]
  {
    hide D.Step, OutcomeOf;
    assert [a, b][..1] == [a] && [a][..0] == [] && [a, b][..0] == [];
    assert D.Run(rq, s, []) == s && D.Run(rq, s, [a]) == D.Step(rq, s, a);
  }

  /** The chain runs `auth` and then `log`, which runs on errors; both throw. */
  function BothThrow(auth: string, log: string, e: RpcError, f: RpcError): seq<Executable> {
    [Ending(auth, false, Err(Rpc(e))), Ending(log, true, Err(Rpc(f)))]
  }

  lemma BothThrowEnds(
    rq: Incoming, s: State, auth: string, log: string, e: RpcError, f: RpcError, show: Value -> R.Received)
    requires !s.hasErrors && s.thrown == map[]
    ensures D.Run(rq, s, BothThrow(auth, log, e, f)).thrown == map[auth := e][log := f]
    ensures OutcomesOf(rq, s, BothThrow(auth, log, e, f), show) == [Threw(e), Threw(f)]
    ensures TurnsOf(BothThrow(auth, log, e, f)) == [Turn(auth, false, true), Turn(log, true, true)]
  {
    hide D.Step, OutcomeOf, D.Run;
    var a, b := Ending(auth, false, Err(Rpc(e))), Ending(log, true, Err(Rpc(f)));
    TwoTurns(rq, s, a, b, show);
    EndingEnds(rq, s, auth, false, Err(Rpc(e)), show);
    EndingEnds(rq, D.Step(rq, s, a), log, true, Err(Rpc(f)), show);
  }

  /** The record lists `log` before `auth`, the run throws first in `auth`: the fatal slot holds the error of `log`. */
  lemma RecordOrderHidesTheFirstError(
    rq: Incoming, s: State, auth: string, log: string, e: RpcError, f: RpcError, show: Value -> R.Received)
    requires !s.hasErrors && s.thrown == map[] && auth != log
    requires e.errorType != R.VALIDATION_ERROR && f.errorType != R.VALIDATION_ERROR
    ensures var chain := BothThrow(auth, log, e, f);
            var exec, outs := TurnsOf(chain), OutcomesOf(rq, s, chain, show);
            && D.Run(rq, s, chain).thrown == map[auth := e, log := f]
            && FirstUndeclared([log, auth], exec, outs) == Some(e)
            && FatalOn([log, auth], [log, auth], [], BodyOf(exec, outs), _ => None, None) == Some(f)
  {
    hide D.Run, OutcomesOf, TurnsOf, BothThrow, FirstUndeclared, FatalOn, BodyOf, Precedes;
    LaterThrowIsTaken(rq, s, auth, log, e, f, show, [log, auth]);
  }

  /** The client never sent `auth`: the fatal slot holds the error of `log`, which ran after it. */
  lemma UnaskedErrorIsHidden(
    rq: Incoming, s: State, auth: string, log: string, e: RpcError, f: RpcError, show: Value -> R.Received)
    requires !s.hasErrors && s.thrown == map[] && auth != log
    requires e.errorType != R.VALIDATION_ERROR && f.errorType != R.VALIDATION_ERROR
    ensures var chain := BothThrow(auth, log, e, f);
            var exec, outs := TurnsOf(chain), OutcomesOf(rq, s, chain, show);
            && D.Run(rq, s, chain).thrown == map[auth := e, log := f]
            && FirstUndeclared([log], exec, outs) == Some(e)
            && FatalOn([log], [log], [], BodyOf(exec, outs), _ => None, None) == Some(f)
  {
    hide D.Run, OutcomesOf, TurnsOf, BothThrow, FirstUndeclared, FatalOn, BodyOf, Precedes;
    LaterThrowIsTaken(rq, s, auth, log, e, f, show, [log]);
  }

  lemma LaterThrowIsTaken(
    rq: Incoming, s: State, auth: string, log: string, e: RpcError, f: RpcError, show: Value -> R.Received,
    order: seq<string>)
    requires !s.hasErrors && s.thrown == map[] && auth != log && order != [] && order[0] == log
    requires e.errorType != R.VALIDATION_ERROR && f.errorType != R.VALIDATION_ERROR
    ensures var chain := BothThrow(auth, log, e, f);
            var exec, outs := TurnsOf(chain), OutcomesOf(rq, s, chain, show);
            && D.Run(rq, s, chain).thrown == map[auth := e, log := f]
            && FirstUndeclared(order, exec, outs) == Some(e)
            && FatalOn(order, order, [], BodyOf(exec, outs), _ => None, None) == Some(f)
  {
    hide D.Run, OutcomesOf, TurnsOf, BothThrow, FirstUndeclared, FatalOn, BodyOf, Precedes;
    BothThrowEnds(rq, s, auth, log, e, f, show);
    var exec := TurnsOf(BothThrow(auth, log, e, f));
    assert order + [] == order;
    NothingPrecedesTheHead(order, auth);
    ListedLaterIsTaken(order, order, [], exec, 0, 1, e, f, _ => None, None);
    assert TwoEnds(exec, 0, Threw(e), 1, Threw(f)) == [Threw(e), Threw(f)];
  }

  /** The client never sent `auth`, which returns an error; a later `log` throws, on errors or not: the fatal slot
      holds the error of `log`. */
  lemma ReturnedErrorIsHidden(
    rq: Incoming, s: State, auth: string, log: string, runOnError: bool, v: Value, e: RpcError, f: RpcError,
    show: Value -> R.Received)
    requires !s.hasErrors && s.thrown == map[] && auth != log && !v.Undefined? && show(v) == R.Failed(e)
    requires f.errorType != R.VALIDATION_ERROR
    ensures var chain := [Ending(auth, false, Ok(v)), Ending(log, runOnError, Err(Rpc(f)))];
            var exec, outs := TurnsOf(chain), OutcomesOf(rq, s, chain, show);
            && D.Run(rq, s, chain).thrown == map[log := f]
            && FirstUndeclared([log], exec, outs) == Some(e)
            && FatalOn([log], [log], [], BodyOf(exec, outs), _ => None, None) == Some(f)
  {
    hide D.Run, D.Step, OutcomeOf, FirstUndeclared, FatalOn, BodyOf;
    var a, b := Ending(auth, false, Ok(v)), Ending(log, runOnError, Err(Rpc(f)));
    TwoTurns(rq, s, a, b, show);
    EndingEnds(rq, s, auth, false, Ok(v), show);
    EndingEnds(rq, D.Step(rq, s, a), log, runOnError, Err(Rpc(f)), show);
    var exec := TurnsOf([a, b]);
    assert [log] + [] == [log];
    AnswerIsHidden([log], [log], [], exec, 0, 1, e, f);
    assert TwoEnds(exec, 0, Answered(R.Failed(e)), 1, Threw(f)) == [Answered(R.Failed(e)), Threw(f)];
  }
}
