/** Running a merged chain: every mapping step has written its value when its target route is called. */
module FlowRun {
  import opened Basics
  import opened Context
  import opened RouteTree
  import opened Dispatch
  import Flow = RoutesFlow

  type Mapper = Value -> Result<Value, Thrown>

  const MISSING_MAPPER: Thrown := Rpc(RpcError("routesFlow-mapping-missing-pure-fn", Some(UNEXPECTED_ERROR), 0))

  // ---------- The handler of a mapping step ----------

  /** Writing one array position, filling any gap with undefined. */
  function Put(items: seq<Value>, i: nat, v: Value): (r: seq<Value>)
    ensures i < |r| && r[i] == v && |items| <= |r|
    ensures forall j :: 0 <= j < |items| && j != i ==> r[j] == items[j]
  {
    if i < |items| then items[i := v] else items + seq(i - |items|, _ => Undefined) + [v]
  }

  function Written(params: Value, i: nat, v: Value): Value {
    if params.List? then List(Put(params.items, i, v)) else params
  }

  /** What a mapping step reads: whatever stands in the response body under its source's id. */
  function Seen(s: State, fromId: string): Value {
    if fromId in s.respBody then s.respBody[fromId] else Undefined
  }

  function MapReaction(m: Flow.Mapping, mappers: map<string, Mapper>, s: State): Reaction {
    var idle := Reaction(s.reqBody, s.respBody, s.headers, s.shared, [], Ok(Undefined));
    if m.bodyHash !in mappers then idle.(outcome := Err(MISSING_MAPPER))
    else
      match mappers[m.bodyHash](Seen(s, m.fromId))
      case Err(thrown) => idle.(outcome := Err(thrown))
      case Ok(v) =>
        if m.toId in s.reqBody && !s.reqBody[m.toId].Undefined? && !s.reqBody[m.toId].Falsy?
        then idle.(reqBody := s.reqBody[m.toId := Written(s.reqBody[m.toId], m.paramIndex, v)])
        else idle
  }

  function MappingExecutable(m: Flow.Mapping, mappers: map<string, Mapper>): Executable {
    Executable(Flow.StepId(m), RawMiddleFn, false, false, false, false, false, ParamsCodec(None, None, None), [],
      _ => true, (s, a) => MapReaction(m, mappers, s))
  }

  /** The executables of a merged chain. */
  function Executables(
    steps: seq<Flow.Step>, impl: RemoteMethod -> Executable, mappers: map<string, Mapper>): (chain: seq<Executable>)
    ensures |chain| == |steps|
  {
    seq(|steps|, i requires 0 <= i < |steps| =>
      match steps[i] case Own(m) => impl(m) case Maps(_, runs) => MappingExecutable(runs, mappers))
  }

  // ---------- One step ----------

  ghost predicate ParamIs(s: State, toId: string, i: nat, v: Value) {
    toId in s.reqBody && s.reqBody[toId].List? && i < |s.reqBody[toId].items| && s.reqBody[toId].items[i] == v
  }

  ghost predicate HasParams(s: State, toId: string) {
    toId in s.reqBody && s.reqBody[toId].List?
  }

  lemma MapStepIs(rq: Incoming, s: State, m: Flow.Mapping, mappers: map<string, Mapper>)
    requires !s.hasErrors
    ensures var re, after := MapReaction(m, mappers, s), Step(rq, s, MappingExecutable(m, mappers));
            && after.reqBody == re.reqBody && after.respBody == s.respBody
            && (re.outcome.Err? ==> after.hasErrors)
  {
    ReportedNothing(s.(reqBody := MapReaction(m, mappers, s).reqBody));
  }

  lemma MapStepSkipped(rq: Incoming, s: State, m: Flow.Mapping, mappers: map<string, Mapper>)
    requires s.hasErrors
    ensures Step(rq, s, MappingExecutable(m, mappers)) == s
  {
  }

  /** A mapping step touches no output and no other parameter, and keeps every parameter list a list. */
  lemma MapStepKeeps(
    rq: Incoming, s: State, m: Flow.Mapping, mappers: map<string, Mapper>, toId: string, i: nat, v: Value)
    ensures var after := Step(rq, s, MappingExecutable(m, mappers));
            && after.respBody == s.respBody
            && (HasParams(s, toId) ==> HasParams(after, toId))
            && (ParamIs(s, toId, i, v) && !(m.toId == toId && m.paramIndex == i) ==> ParamIs(after, toId, i, v))
  {
    hide Step;
    if s.hasErrors { MapStepSkipped(rq, s, m, mappers); } else { MapStepIs(rq, s, m, mappers); }
  }

  /** Parameters that are not a list stay so: a mapping step drops its value. */
  lemma MapStepDrops(rq: Incoming, s: State, m: Flow.Mapping, mappers: map<string, Mapper>, toId: string)
    requires !HasParams(s, toId)
    ensures !HasParams(Step(rq, s, MappingExecutable(m, mappers)), toId)
  {
    hide Step;
    if s.hasErrors { MapStepSkipped(rq, s, m, mappers); } else { MapStepIs(rq, s, m, mappers); }
  }

  /** A mapping step that does not fail writes its mapper's value where it was asked to. */
  lemma MapStepWrites(rq: Incoming, s: State, m: Flow.Mapping, mappers: map<string, Mapper>)
    requires !s.hasErrors && HasParams(s, m.toId) && !Step(rq, s, MappingExecutable(m, mappers)).hasErrors
    ensures m.bodyHash in mappers && mappers[m.bodyHash](Seen(s, m.fromId)).Ok?
    ensures ParamIs(Step(rq, s, MappingExecutable(m, mappers)), m.toId, m.paramIndex,
        mappers[m.bodyHash](Seen(s, m.fromId)).value)
  {
    hide Step;
    MapStepIs(rq, s, m, mappers);
  }

  /** A mapping step whose mapper is not there raises an error of its own and changes no params. */
  lemma MissingMapperIsRaised(rq: Incoming, s: State, m: Flow.Mapping, mappers: map<string, Mapper>)
    requires !s.hasErrors && m.bodyHash !in mappers
    ensures var error := RpcError("routesFlow-mapping-missing-pure-fn", Some(422), 0);
            && Raised(rq, s, MappingExecutable(m, mappers)) == [(Flow.StepId(m), Rpc(error))]
            && Step(rq, s, MappingExecutable(m, mappers)).reqBody == s.reqBody
  {
    hide Flow.StepId;
    MapStepIs(rq, s, m, mappers);
  }

  /** The method is not `id`, and its handler leaves `id`'s parameters alone. */
  ghost predicate LeavesParams(e: Executable, id: string) {
    && e.id != id
    && forall s: State, a: Args :: SameAt(e.handler(s, a).reqBody, s.reqBody, id)
  }

  ghost predicate SameAt(a: map<string, Value>, b: map<string, Value>, id: string) {
    (id in a <==> id in b) && (id in a ==> a[id] == b[id])
  }

  lemma {:induction false} ReportedKeepsParams(s: State, reports: seq<Report>)
    ensures Reported(s, reports).reqBody == s.reqBody
  {
    if reports != [] { ReportedKeepsParams(s, reports[..|reports| - 1]); }
  }

  lemma StepLeavesParams(rq: Incoming, s: State, e: Executable, id: string)
    requires LeavesParams(e, id)
    ensures SameAt(Step(rq, s, e).reqBody, s.reqBody, id)
  {
    hide Prepared, Reported;
    if Attempted(s, e) {
      PreparedWritesOwn(rq, s, e, id);
      var (now, args) := Prepared(rq, s, e);
      if args.Ok? {
        var re := e.handler(now, args.value);
        ReportedKeepsParams(now.(reqBody := re.reqBody, respBody := re.respBody, headers := re.headers, shared :=
          re.shared), re.reports);
      }
    }
  }

  lemma PreparedWritesOwn(rq: Incoming, s: State, e: Executable, id: string)
    requires e.id != id
    ensures SameAt(Prepared(rq, s, e).0.reqBody, s.reqBody, id)
  {
  }

  /** A method's result, once returned, stands under its id. */
  lemma OutputIsStored(rq: Incoming, s: State, e: Executable)
    requires Attempted(s, e) && Prepared(rq, s, e).1.Ok? && e.hasReturnData
    requires var (now, args) := Prepared(rq, s, e);
             var outcome := e.handler(now, args.value).outcome;
             outcome.Ok? && !outcome.value.Undefined? && !(e.headersReturn && outcome.value.HeadersSubset?)
    ensures var (now, args) := Prepared(rq, s, e);
            Seen(Step(rq, s, e), e.id) == e.handler(now, args.value).outcome.value
  {
  }

  // ---------- A stretch of a run ----------

  function At(rq: Incoming, s: State, chain: seq<Executable>, i: nat): State
    requires i <= |chain|
  {
    Run(rq, s, chain[..i])
  }

  lemma AtNext(rq: Incoming, s: State, chain: seq<Executable>, i: nat)
    requires i < |chain|
    ensures At(rq, s, chain, i + 1) == Step(rq, At(rq, s, chain, i), chain[i])
  {
    assert chain[..i + 1][..i] == chain[..i];
  }

  /** An error once recorded stays recorded. */
  lemma {:induction false} ErrorsStay(rq: Incoming, s: State, chain: seq<Executable>, i: nat, j: nat)
    requires i <= j <= |chain| && !At(rq, s, chain, j).hasErrors
    ensures !At(rq, s, chain, i).hasErrors
    decreases j - i
  {
    hide Step, Run, Reported;
    if i < j {
      ErrorsStay(rq, s, chain, i + 1, j);
      AtNext(rq, s, chain, i);
      var before := At(rq, s, chain, i);
      StepRecordsErrors(rq, before, chain[i]);
      ReportedErrorsAre(before, Raised(rq, before, chain[i]));
    }
  }

  ghost predicate AllMappings(
    chain: seq<Executable>, ms: seq<Option<Flow.Mapping>>, mappers: map<string, Mapper>, lo: nat, hi: nat)
  {
    && |ms| == |chain| && hi <= |chain|
    && forall j :: lo <= j < hi ==> ms[j].Some? && chain[j] == MappingExecutable(ms[j].value, mappers)
  }

  /** Through a stretch of mapping steps the outputs stay as they are, and parameter lists stay lists. */
  lemma {:induction false} MappingsKeepOutputs(
    rq: Incoming, s: State, chain: seq<Executable>, ms: seq<Option<Flow.Mapping>>, mappers: map<string, Mapper>,
    lo: nat, hi: nat, toId: string)
    requires lo <= hi && AllMappings(chain, ms, mappers, lo, hi)
    requires HasParams(At(rq, s, chain, lo), toId)
    ensures At(rq, s, chain, hi).respBody == At(rq, s, chain, lo).respBody
    ensures HasParams(At(rq, s, chain, hi), toId)
    decreases hi - lo
  {
    hide Step, Run, HasParams, At, MappingExecutable;
    if lo < hi {
      MappingsKeepOutputs(rq, s, chain, ms, mappers, lo, hi - 1, toId);
      AtNext(rq, s, chain, hi - 1);
      MapStepKeeps(rq, At(rq, s, chain, hi - 1), ms[hi - 1].value, mappers, toId, 0, Undefined);
    }
  }

  /** A parameter value survives a stretch in which every method keeps it. */
  lemma {:induction false} ParamSurvives(
    rq: Incoming, s: State, chain: seq<Executable>, lo: nat, hi: nat, toId: string, i: nat, v: Value)
    requires lo <= hi <= |chain| && ParamIs(At(rq, s, chain, lo), toId, i, v)
    requires forall j :: lo <= j < hi && ParamIs(At(rq, s, chain, j), toId, i, v) ==>
               ParamIs(At(rq, s, chain, j + 1), toId, i, v)
    ensures ParamIs(At(rq, s, chain, hi), toId, i, v)
    decreases hi - lo
  {
    hide ParamIs, At;
    if lo < hi {
      ParamSurvives(rq, s, chain, lo, hi - 1, toId, i, v);
      assert ParamIs(At(rq, s, chain, hi - 1), toId, i, v);
      assert ParamIs(At(rq, s, chain, (hi - 1) + 1), toId, i, v);
    }
  }

  // ---------- A whole flow ----------

  function MappingsOf(steps: seq<Flow.Step>): (ms: seq<Option<Flow.Mapping>>)
    ensures |ms| == |steps|
  {
    seq(|steps|, i requires 0 <= i < |steps| => if steps[i].Maps? then Some(steps[i].runs) else None)
  }

  lemma ExecutableAt(steps: seq<Flow.Step>, impl: RemoteMethod -> Executable, mappers: map<string, Mapper>, i: nat)
    requires i < |steps|
    ensures Executables(steps, impl, mappers)[i] ==
            match steps[i] case Own(m) => impl(m) case Maps(_, runs) => MappingExecutable(runs, mappers)
    ensures MappingsOf(steps)[i] == if steps[i].Maps? then Some(steps[i].runs) else None
  {
  }

  /** A step that writes the parameter this mapping is for. */
  ghost predicate Writes(step: Flow.Step, m: Flow.Mapping) {
    step.Maps? && step.runs.toId == m.toId && step.runs.paramIndex == m.paramIndex
  }

  /** How the steps around one mapping stand: its source at p, its own step at k with only steps between, its
      target at q; a step that writes the same parameter is this mapping's and has the same source just before. */
  ghost predicate Threaded(steps: seq<Flow.Step>, m: Flow.Mapping, p: int, k: int, q: int) {
    && 0 <= p < k < q < |steps|
    && steps[k] == Flow.Maps(m, m)
    && (forall j :: p < j <= k ==> steps[j].Maps?)
    && (forall j :: p < j < q && Writes(steps[j], m) ==> FromSource(steps, m, p, j))
  }

  ghost predicate FromSource(steps: seq<Flow.Step>, m: Flow.Mapping, p: int, j: int) {
    0 <= p < j < |steps| && steps[j].Maps? && steps[j].runs == m && forall i :: p < i <= j ==> steps[i].Maps?
  }

  ghost predicate Undisturbed(steps: seq<Flow.Step>, impl: RemoteMethod -> Executable, toId: string, p: int, q: int) {
    0 <= p < q <= |steps| && forall j :: p < j < q && steps[j].Own? ==> LeavesParams(impl(steps[j].m), toId)
  }

  /** From just after the source to any step of the same stretch: same outputs, still a list of parameters. */
  lemma StretchKeeps(
    rq: Incoming, s: State, steps: seq<Flow.Step>, impl: RemoteMethod -> Executable, mappers: map<string, Mapper>,
    toId: string, p: nat, k: nat)
    requires p < k < |steps| && forall j :: p < j <= k ==> steps[j].Maps?
    requires HasParams(At(rq, s, Executables(steps, impl, mappers), p + 1), toId)
    ensures var chain := Executables(steps, impl, mappers);
            && At(rq, s, chain, k).respBody == At(rq, s, chain, p + 1).respBody
            && HasParams(At(rq, s, chain, k), toId)
  {
    hide Run, HasParams, At, MappingExecutable, Executables, MappingsOf;
    var chain, ms := Executables(steps, impl, mappers), MappingsOf(steps);
    forall j | p + 1 <= j < k ensures ms[j].Some? && chain[j] == MappingExecutable(ms[j].value, mappers) {
      ExecutableAt(steps, impl, mappers, j);
    }
    MappingsKeepOutputs(rq, s, chain, ms, mappers, p + 1, k, toId);
  }

  /** One method between the mapping's step and its target keeps the value written. */
  lemma StepKeepsValue(
    rq: Incoming, s: State, steps: seq<Flow.Step>, impl: RemoteMethod -> Executable, mappers: map<string, Mapper>,
    m: Flow.Mapping, p: nat, k: nat, q: nat, j: nat, v: Value)
    requires Threaded(steps, m, p, k, q) && k < j < q && Undisturbed(steps, impl, m.toId, p, q)
    requires var chain := Executables(steps, impl, mappers);
             && HasParams(At(rq, s, chain, p + 1), m.toId)
             && !At(rq, s, chain, j + 1).hasErrors
             && m.bodyHash in mappers && mappers[m.bodyHash](Seen(At(rq, s, chain, p + 1), m.fromId)) == Ok(v)
             && ParamIs(At(rq, s, chain, j), m.toId, m.paramIndex, v)
    ensures ParamIs(At(rq, s, Executables(steps, impl, mappers), j + 1), m.toId, m.paramIndex, v)
  {
    hide Step, Run, At, MappingExecutable, Executables, LeavesParams;
    var chain := Executables(steps, impl, mappers);
    AtNext(rq, s, chain, j);
    ExecutableAt(steps, impl, mappers, j);
    var before := At(rq, s, chain, j);
    if steps[j].Own? {
      StepLeavesParams(rq, before, chain[j], m.toId);
    } else if steps[j].runs.toId == m.toId && steps[j].runs.paramIndex == m.paramIndex {
      assert FromSource(steps, m, p, j);
      StretchKeeps(rq, s, steps, impl, mappers, m.toId, p, j);
      ErrorsStay(rq, s, chain, j, j + 1);
      MapStepWrites(rq, before, m, mappers);
    } else {
      MapStepKeeps(rq, before, steps[j].runs, mappers, m.toId, m.paramIndex, v);
    }
  }

  /** In a run of threaded steps, a target reached without an error finds its parameter mapped. */
  lemma ThreadedDelivers(
    rq: Incoming, s: State, steps: seq<Flow.Step>, impl: RemoteMethod -> Executable, mappers: map<string, Mapper>,
    m: Flow.Mapping, p: nat, k: nat, q: nat)
    requires Threaded(steps, m, p, k, q) && Undisturbed(steps, impl, m.toId, p, q)
    requires var chain := Executables(steps, impl, mappers);
             HasParams(At(rq, s, chain, p + 1), m.toId) && !At(rq, s, chain, q).hasErrors
    ensures Delivered(rq, s, Executables(steps, impl, mappers), mappers, m, p, q)
  {
    hide Step, Run, At, MappingExecutable, Executables, LeavesParams, HasParams, ParamIs;
    var chain := Executables(steps, impl, mappers);
    StretchKeeps(rq, s, steps, impl, mappers, m.toId, p, k);
    ErrorsStay(rq, s, chain, k, q);
    ErrorsStay(rq, s, chain, k + 1, q);
    AtNext(rq, s, chain, k);
    ExecutableAt(steps, impl, mappers, k);
    MapStepWrites(rq, At(rq, s, chain, k), m, mappers);
    var v := mappers[m.bodyHash](Seen(At(rq, s, chain, p + 1), m.fromId)).value;
    forall j | k + 1 <= j < q && ParamIs(At(rq, s, chain, j), m.toId, m.paramIndex, v)
      ensures ParamIs(At(rq, s, chain, j + 1), m.toId, m.paramIndex, v)
    {
      ErrorsStay(rq, s, chain, j + 1, q);
      StepKeepsValue(rq, s, steps, impl, mappers, m, p, k, q, j, v);
    }
    ParamSurvives(rq, s, chain, k + 1, q, m.toId, m.paramIndex, v);
  }

  /** Without a list of parameters just after the source there is none when the target is reached. */
  lemma {:induction false} NoParamsStay(
    rq: Incoming, s: State, steps: seq<Flow.Step>, impl: RemoteMethod -> Executable, mappers: map<string, Mapper>,
    toId: string, p: nat, q: nat, j: nat)
    requires p < j <= q < |steps| && Undisturbed(steps, impl, toId, p, q)
    requires !HasParams(At(rq, s, Executables(steps, impl, mappers), p + 1), toId)
    ensures !HasParams(At(rq, s, Executables(steps, impl, mappers), j), toId)
  {
    hide Step, Run, At, MappingExecutable, Executables, LeavesParams;
    var chain := Executables(steps, impl, mappers);
    if p + 1 < j {
      NoParamsStay(rq, s, steps, impl, mappers, toId, p, q, j - 1);
      AtNext(rq, s, chain, j - 1);
      ExecutableAt(steps, impl, mappers, j - 1);
      var before := At(rq, s, chain, j - 1);
      if steps[j - 1].Own? {
        StepLeavesParams(rq, before, chain[j - 1], toId);
      } else {
        MapStepDrops(rq, before, steps[j - 1].runs, mappers, toId);
      }
    }
  }

  /** When the method at q is reached, the parameter holds the mapper's value of the source's output. */
  ghost predicate Delivered(
    rq: Incoming, s: State, chain: seq<Executable>, mappers: map<string, Mapper>, m: Flow.Mapping, p: nat, q: nat)
    requires p < q < |chain|
  {
    && m.bodyHash in mappers
    && var outputs := At(rq, s, chain, p + 1).respBody;
       var mapped := mappers[m.bodyHash](if m.fromId in outputs then outputs[m.fromId] else Undefined);
       mapped.Ok? && ParamIs(At(rq, s, chain, q), m.toId, m.paramIndex, mapped.value)
  }

  // ---------- Every flow the router builds ----------

  /** The steps of a woven list are those of its mappings, with the cached handlers, and every mapping has one. */
  lemma {:induction false} FollowedSteps(
    ms: seq<RemoteMethod>, mappings: seq<Flow.Mapping>, cache: map<string, Flow.Mapping>)
    requires forall m :: m in mappings ==> Flow.StepId(m) in cache
    ensures forall s :: s in Flow.Followed(ms, mappings, cache) && s.Maps? ==>
              s.asked in mappings && s.runs == cache[Flow.StepId(s.asked)]
    ensures forall m :: m in mappings && m.fromId in Flow.IdSet(ms) ==>
              Flow.Maps(m, cache[Flow.StepId(m)]) in Flow.Followed(ms, mappings, cache)
  {
    hide Flow.StepId, Flow.StepsFrom;
    if ms != [] {
      FollowedSteps(ms[1..], mappings, cache);
      Flow.StepsFromAre(ms[0].id, mappings, cache);
      assert Flow.IdSet(ms) == {ms[0].id} + Flow.IdSet(ms[1..]) by {
        assert forall m :: m in ms <==> m == ms[0] || m in ms[1..];
      }
    }
  }

  /** What the woven list says about one mapping, when the step ids agree and its target position is its own. */
  lemma WovenIsThreaded(
    ms: seq<RemoteMethod>, mappings: seq<Flow.Mapping>, was: map<string, Flow.Mapping>, m: Flow.Mapping, p: nat, q: nat)
    requires Flow.DistinctIds(ms) && m in mappings && Flow.IdsAgree(was, mappings) && OwnPosition(m, mappings)
    requires Flow.Usable(ms, mappings, Flow.Created(was, mappings))
    requires var w := Flow.Woven(ms, mappings, Flow.Created(was, mappings));
             p < q && Flow.OwnAt(w, m.fromId, p) && Flow.OwnAt(w, m.toId, q)
    ensures exists k :: Threaded(Flow.Woven(ms, mappings, Flow.Created(was, mappings)), m, p, k, q)
  {
    hide Flow.StepId, Flow.Created, Flow.Woven, Flow.Followed, Flow.Erase, Flow.IndexMap, Flow.DistinctIds,
      Flow.IdsAgree, Flow.IdSet;
    var now := Flow.Created(was, mappings);
    var w := Flow.Woven(ms, mappings, now);
    Flow.UsableCached(ms, mappings, now);
    Flow.WovenIsFollowed(ms, mappings, now);
    Flow.EraseFollowed(ms, mappings, now);
    Flow.StepsRunWhatWasAskedIff(was, mappings);
    FollowedSteps(ms, mappings, now);
    SourceIsListed(ms, mappings, now, m);
    assert Flow.Maps(m, m) in w;
    var k: nat :| k < |w| && w[k] == Flow.Maps(m, m);
    Hugging(ms, mappings, now, m, p, k);
    Flow.StepFollowsSource(ms, mappings, now, p, k, q);
    forall j | p < j < q && Writes(w[j], m)
      ensures FromSource(w, m, p, j)
    {
      assert w[j] in w;
      assert w[j].runs == w[j].asked == m;
      Hugging(ms, mappings, now, m, p, j);
    }
    assert Threaded(w, m, p, k, q);
  }

  ghost predicate OwnPosition(m: Flow.Mapping, mappings: seq<Flow.Mapping>) {
    forall n :: n in mappings && n.toId == m.toId && n.paramIndex == m.paramIndex ==> n == m
  }

  lemma SourceIsListed(
    ms: seq<RemoteMethod>, mappings: seq<Flow.Mapping>, cache: map<string, Flow.Mapping>, m: Flow.Mapping)
    requires Flow.Usable(ms, mappings, cache) && m in mappings
    ensures m.fromId in Flow.IdSet(ms)
  {
    assert m.fromId in Flow.IndexMap(ms);
    assert ms[Flow.IndexMap(ms)[m.fromId]] in ms;
  }

  /** A step for the mapping stands in the stretch right after the mapping's source. */
  lemma Hugging(
    ms: seq<RemoteMethod>, mappings: seq<Flow.Mapping>, cache: map<string, Flow.Mapping>, m: Flow.Mapping, p: nat,
    j: nat)
    requires Flow.DistinctIds(ms) && Flow.Usable(ms, mappings, cache)
    requires var w := Flow.Woven(ms, mappings, cache);
             Flow.OwnAt(w, m.fromId, p) && j < |w| && w[j].Maps? && w[j].asked == m
    ensures p < j && forall i :: p < i <= j ==> Flow.Woven(ms, mappings, cache)[i].Maps?
  {
    hide Flow.StepId, Flow.Woven, Flow.Followed, Flow.Erase, Flow.IndexMap, Flow.DistinctIds, Flow.Usable;
    var w := Flow.Woven(ms, mappings, cache);
    Flow.UsableCached(ms, mappings, cache);
    Flow.WovenIsFollowed(ms, mappings, cache);
    Flow.EraseFollowed(ms, mappings, cache);
    Flow.StepsHugTheirSource(ms, mappings, cache, j);
    var source :| Flow.Hugs(w, source, j);
    Flow.OwnIsUnique(w, source, p);
  }

  lemma ThreadedShifts(
    front: seq<Flow.Step>, w: seq<Flow.Step>, back: seq<Flow.Step>, m: Flow.Mapping, p: int, k: int, q: int)
    requires Threaded(w, m, p, k, q)
    ensures Threaded(front + w + back, m, |front| + p, |front| + k, |front| + q)
  {
    var all, off := front + w + back, |front|;
    assert forall i :: 0 <= i < |w| ==> all[off + i] == w[i];
    forall j | off + p < j <= off + k ensures all[j].Maps? {
      assert all[j] == w[j - off];
    }
    forall j | off + p < j < off + q && all[j].Maps? && all[j].runs.toId == m.toId
      && all[j].runs.paramIndex == m.paramIndex
      ensures FromSource(all, m, off + p, j)
    {
      assert all[j] == w[j - off];
      assert FromSource(w, m, p, j - off);
      forall i | off + p < i <= j ensures all[i].Maps? {
        assert all[i] == w[i - off];
      }
    }
  }

  lemma NotAmong(ms: seq<RemoteMethod>, id: string)
    requires id !in Flow.IdSet(ms)
    ensures forall i :: 0 <= i < |ms| ==> Flow.OwnSteps(ms)[i].Own? && Flow.OwnSteps(ms)[i].m.id != id
  {
    hide Flow.OwnSteps;
    Flow.OwnStepsAre(ms);
    forall i | 0 <= i < |ms| ensures Flow.OwnSteps(ms)[i].Own? && Flow.OwnSteps(ms)[i].m.id != id {
      assert ms[i] in ms;
    }
  }

  /** A method whose id belongs to neither end stands in the middle. */
  lemma StandsInTheMiddle(env: Flow.FlowEnv, w: seq<Flow.Step>, id: string, at: nat)
    requires id !in Flow.Skip(env)
    requires Flow.OwnAt(Flow.OwnSteps(env.start) + w + Flow.OwnSteps(env.end), id, at)
    ensures |env.start| <= at < |env.start| + |w| && Flow.OwnAt(w, id, at - |env.start|)
  {
    hide Flow.OwnSteps, Flow.IdSet;
    NotAmong(env.start, id);
    NotAmong(env.end, id);
  }

  /** Every chain the router builds is threaded for every mapping whose source precedes its target. */
  lemma BuiltIsThreaded(
    env: Flow.FlowEnv, raw: nat, query: Flow.Query, cache: map<string, Flow.Mapping>, m: Flow.Mapping, p: nat, q: nat)
    requires query.routes != [] && Flow.Build(env, raw, query, cache).Ok?
    requires m in query.mappings && Flow.IdsAgree(cache, query.mappings) && OwnPosition(m, query.mappings)
    requires var steps := Flow.Build(env, raw, query, cache).value.steps;
             p < q && Flow.OwnAt(steps, m.fromId, p) && Flow.OwnAt(steps, m.toId, q)
    ensures exists k :: Threaded(Flow.Build(env, raw, query, cache).value.steps, m, p, k, q)
  {
    hide Flow.Resolved, Flow.FirstRefusal, Flow.Created, Flow.Merge, Flow.AllMethods, Flow.Woven, Flow.OwnSteps,
      Flow.IndexMap, Flow.MergedSerializer, Flow.StepId, Flow.IdSet, Flow.DistinctIds, Flow.Usable, Flow.IdsAgree,
      OwnPosition, Flow.Refusal, Flow.Skip;
    var all := Flow.AllMethods(Flow.Resolved(env, raw, query.routes).value);
    var middle, now := Flow.Merge(all, Flow.Skip(env)), Flow.Created(cache, query.mappings);
    Flow.CreatedIsUsable(middle, query.mappings, env.mappers, cache);
    Flow.MergeMembers(all, Flow.Skip(env));
    BothEndsListed(middle, query.mappings, env.mappers, m);
    var w := Flow.Woven(middle, query.mappings, now);
    StandsInTheMiddle(env, w, m.fromId, p);
    StandsInTheMiddle(env, w, m.toId, q);
    WovenIsThreaded(middle, query.mappings, cache, m, p - |env.start|, q - |env.start|);
    var k :| Threaded(w, m, p - |env.start|, k, q - |env.start|);
    ThreadedShifts(Flow.OwnSteps(env.start), w, Flow.OwnSteps(env.end), m, p - |env.start|, k, q - |env.start|);
  }

  lemma BothEndsListed(ms: seq<RemoteMethod>, mappings: seq<Flow.Mapping>, mappers: set<string>, m: Flow.Mapping)
    requires Flow.FirstRefusal(ms, mappings, mappers).None? && m in mappings
    ensures m.fromId in Flow.IdSet(ms) && m.toId in Flow.IdSet(ms)
  {
    Flow.NoRefusal(ms, mappings, mappers, m);
    assert ms[Flow.IndexMap(ms)[m.fromId]] in ms && ms[Flow.IndexMap(ms)[m.toId]] in ms;
  }

  /** A mapping of a built flow, with its source at p before its target at q, and a run that has come to q: the
      step ids tell the mappings apart, the position is this mapping's alone, no method in between rewrites the
      target's parameters, and the target is attempted without running on errors. */
  ghost predicate IsDue(
    env: Flow.FlowEnv, raw: nat, query: Flow.Query, cache: map<string, Flow.Mapping>,
    impl: RemoteMethod -> Executable, mappers: map<string, Mapper>, rq: Incoming, s: State, m: Flow.Mapping, p: nat,
    q: nat)
  {
    && query.routes != [] && Flow.Build(env, raw, query, cache).Ok?
    && m in query.mappings && Flow.IdsAgree(cache, query.mappings) && OwnPosition(m, query.mappings)
    && var steps := Flow.Build(env, raw, query, cache).value.steps;
       && p < q && Flow.OwnAt(steps, m.fromId, p) && Flow.OwnAt(steps, m.toId, q)
       && Undisturbed(steps, impl, m.toId, p, q)
       && Attempted(At(rq, s, Executables(steps, impl, mappers), q), impl(steps[q].m))
       && !impl(steps[q].m).runOnError
  }

  /** In every run of every flow, whatever the handlers do: a target whose mapping is due finds the mapper's value
      of the source's output at its parameter exactly when its parameters are a list once the source has run.
      Otherwise the value is dropped without an error. */
  lemma FlowDeliversIff(
    env: Flow.FlowEnv, raw: nat, query: Flow.Query, cache: map<string, Flow.Mapping>,
    impl: RemoteMethod -> Executable, mappers: map<string, Mapper>, rq: Incoming, s: State, m: Flow.Mapping, p: nat,
    q: nat)
    requires IsDue(env, raw, query, cache, impl, mappers, rq, s, m, p, q)
    ensures var chain := Executables(Flow.Build(env, raw, query, cache).value.steps, impl, mappers);
            Delivered(rq, s, chain, mappers, m, p, q) <==> HasParams(At(rq, s, chain, p + 1), m.toId)
  {
    hide Flow.Build, Flow.IdsAgree, OwnPosition, Threaded, At, Executables, HasParams, Undisturbed;
    var steps := Flow.Build(env, raw, query, cache).value.steps;
    var chain := Executables(steps, impl, mappers);
    BuiltIsThreaded(env, raw, query, cache, m, p, q);
    var k :| Threaded(steps, m, p, k, q);
    ThreadedOrder(steps, m, p, k, q);
    if HasParams(At(rq, s, chain, p + 1), m.toId) {
      ThreadedDelivers(rq, s, steps, impl, mappers, m, p, k, q);
    } else {
      NoParamsStay(rq, s, steps, impl, mappers, m.toId, p, q, q);
      NothingDelivered(rq, s, chain, mappers, m, p, q);
    }
  }

  lemma NothingDelivered(
    rq: Incoming, s: State, chain: seq<Executable>, mappers: map<string, Mapper>, m: Flow.Mapping, p: nat, q: nat)
    requires p < q < |chain| && !HasParams(At(rq, s, chain, q), m.toId)
    ensures !Delivered(rq, s, chain, mappers, m, p, q)
  {
    hide At;
  }

  lemma ThreadedOrder(steps: seq<Flow.Step>, m: Flow.Mapping, p: int, k: int, q: int)
    requires Threaded(steps, m, p, k, q)
    ensures 0 <= p < k < q < |steps|
  {
  }

  // ---------- A flow of two routes ----------

  /** What a flow of two routes runs, whatever middleFns start and end every chain. */
  function TwoRouteSteps(env: Flow.FlowEnv, a: RemoteMethod, b: RemoteMethod, m: Flow.Mapping): seq<Flow.Step> {
    Flow.OwnSteps(env.start) + [Flow.Own(a), Flow.Maps(m, m), Flow.Own(b)] + Flow.OwnSteps(env.end)
  }

  /** Two routes with no middleFns of their own, the first feeding a parameter of the second. */
  ghost predicate TwoRoutes(
    env: Flow.FlowEnv, raw: nat, paths: seq<string>, a: RemoteMethod, b: RemoteMethod, m: Flow.Mapping)
  {
    && |paths| == 2 && a.id != b.id && a.id !in Flow.Skip(env) && b.id !in Flow.Skip(env)
    && (forall i :: 0 <= i < 2 ==> Flow.PathFor(env, raw, paths[i]) in env.router)
    && env.router[Flow.PathFor(env, raw, paths[0])].methods == env.start + [a] + env.end
    && env.router[Flow.PathFor(env, raw, paths[1])].methods == env.start + [b] + env.end
    && m.fromId == a.id && m.toId == b.id && m.paramIndex < b.def.paramsCount && m.bodyHash in env.mappers
  }

  /** Such a flow is start, source, step, target, end. */
  lemma TwoRouteFlow(env: Flow.FlowEnv, raw: nat, paths: seq<string>, a: RemoteMethod, b: RemoteMethod, m: Flow.Mapping)
    requires TwoRoutes(env, raw, paths, a, b, m)
    ensures var built := Flow.Build(env, raw, Flow.Query(paths, [m]), map[]);
            built.Ok? && built.value.steps == TwoRouteSteps(env, a, b, m)
  {
    hide Flow.Resolved, Flow.AllMethods, Flow.FirstRefusal, Flow.Created, Flow.Woven, Flow.Merge, Flow.MergedSerializer,
      Flow.StepId, Flow.Skip, Flow.OwnSteps, Flow.PathFor;
    var first, second := env.router[Flow.PathFor(env, raw, paths[0])], env.router[Flow.PathFor(env, raw, paths[1])];
    TwoResolved(env, raw, paths);
    TwoMerged(env, first, second, a, b);
    TwoWoven(a, b, m, env.mappers);
  }

  lemma TwoResolved(env: Flow.FlowEnv, raw: nat, paths: seq<string>)
    requires |paths| == 2 && forall i :: 0 <= i < 2 ==> Flow.PathFor(env, raw, paths[i]) in env.router
    ensures Flow.Resolved(env, raw, paths) ==
            Basics.Ok([env.router[Flow.PathFor(env, raw, paths[0])], env.router[Flow.PathFor(env, raw, paths[1])]])
  {
    Flow.OnePath(env, raw, paths[0]);
    Flow.ResolvedStep(env, raw, [paths[0]], paths[1]);
    assert paths == [paths[0]] + [paths[1]];
    var first, second := env.router[Flow.PathFor(env, raw, paths[0])], env.router[Flow.PathFor(env, raw, paths[1])];
    assert [first] + [second] == [first, second];
  }

  lemma TwoMerged(env: Flow.FlowEnv, first: Chain, second: Chain, a: RemoteMethod, b: RemoteMethod)
    requires first.methods == env.start + [a] + env.end && second.methods == env.start + [b] + env.end
    requires a.id != b.id && a.id !in Flow.Skip(env) && b.id !in Flow.Skip(env)
    ensures Flow.Merge(Flow.AllMethods([first, second]), Flow.Skip(env)) == [a, b]
  {
    hide Flow.Merge, Flow.AllMethods, Flow.IdSet;
    var skip := Flow.Skip(env);
    Flow.NothingMerged(env, 0);
    Flow.AllMethodsStep([], first);
    Flow.AllMethodsStep([first], second);
    assert [] + [first] == [first] && [first] + [second] == [first, second];
    var one := env.start + [a];
    OneMerged(env, [], a);
    assert [] + env.start + [a] == one && [] + [a] == [a];
    Flow.IdSetStep([], a);
    Flow.MergeDrops(one, env.end, skip);
    OneMerged(env, one + env.end, b);
    Flow.MergeDrops(one + env.end + env.start + [b], env.end, skip);
    assert Flow.AllMethods([first]) == one + env.end;
    assert Flow.AllMethods([first, second]) == one + env.end + env.start + [b] + env.end;
    assert [a] + [b] == [a, b];
  }

  lemma OneMerged(env: Flow.FlowEnv, before: seq<RemoteMethod>, a: RemoteMethod)
    requires a.id !in Flow.Skip(env) && a.id !in Flow.IdSet(Flow.Merge(before, Flow.Skip(env)))
    ensures Flow.Merge(before + env.start + [a], Flow.Skip(env)) == Flow.Merge(before, Flow.Skip(env)) + [a]
  {
    hide Flow.Merge, Flow.IdSet;
    Flow.MergeDrops(before, env.start, Flow.Skip(env));
    Flow.MergeStep(before + env.start, a, Flow.Skip(env));
  }

  lemma TwoWoven(a: RemoteMethod, b: RemoteMethod, m: Flow.Mapping, mappers: set<string>)
    requires a.id != b.id && m.fromId == a.id && m.toId == b.id && m.paramIndex < b.def.paramsCount
    requires m.bodyHash in mappers
    ensures Flow.FirstRefusal([a, b], [m], mappers) == Basics.None
    ensures var now := Flow.Created(map[], [m]);
            Flow.Usable([a, b], [m], now) && Flow.Woven([a, b], [m], now) == [Flow.Own(a), Flow.Maps(m, m), Flow.Own(b)]
  {
    hide Flow.StepId, Flow.Woven, Flow.IndexMap;
    var now := Flow.Created(map[], [m]);
    Flow.IndexMapFinds([a, b]);
    assert [a, b][0] == a && [a, b][1] == b;
    Flow.FirstRefusalStep([a, b], [], m, mappers);
    Flow.CreatedStep(map[], [], m);
    assert [] + [m] == [m];
    Flow.CreatedIsUsable([a, b], [m], mappers, map[]);
    Flow.WovenIsFollowed([a, b], [m], now);
    assert [a, b][1..] == [b] && [b][1..] == [] && [m][..0] == [];
    Flow.StepsRunWhatWasAskedIff(map[], [m]);
    assert now[Flow.StepId(m)] == m;
    assert Flow.StepsFrom(a.id, [m], now) == [Flow.Maps(m, m)];
    assert Flow.StepsFrom(b.id, [m], now) == [];
    assert Flow.Followed([b], [m], now) == [Flow.Own(b)];
    assert Flow.Followed([a, b], [m], now) == [Flow.Own(a)] + [Flow.Maps(m, m)] + [Flow.Own(b)];
  }

  /** In a flow of two routes the mapping is due, whatever runs in front: the source has run, no error is recorded,
      and the mapper accepts what the source gave. */
  lemma TwoRouteMappingIsDue(
    env: Flow.FlowEnv, raw: nat, paths: seq<string>, a: RemoteMethod, b: RemoteMethod, m: Flow.Mapping,
    impl: RemoteMethod -> Executable, mappers: map<string, Mapper>, rq: Incoming, s: State)
    requires TwoRoutes(env, raw, paths, a, b, m) && !impl(b).runOnError
    requires var ran := At(rq, s, Executables(TwoRouteSteps(env, a, b, m), impl, mappers), |env.start| + 1);
             && !ran.hasErrors
             && m.bodyHash in mappers && mappers[m.bodyHash](Seen(ran, a.id)).Ok?
    ensures IsDue(env, raw, Flow.Query(paths, [m]), map[], impl, mappers, rq, s, m, |env.start|, |env.start| + 2)
  {
    hide Flow.Build, Flow.StepId, Step, HasParams, Flow.OwnSteps, Flow.PathFor, At, Flow.Skip;
    TwoRouteFlow(env, raw, paths, a, b, m);
    var steps, p := TwoRouteSteps(env, a, b, m), |env.start|;
    var chain := Executables(steps, impl, mappers);
    AtNext(rq, s, chain, p + 1);
    CleanMapStep(rq, At(rq, s, chain, p + 1), m, mappers);
    assert Flow.IdsAgree(map[], [m]);
    assert m in [m];
  }

  /** A request that sends no parameters for the target: the target runs, and the mapped value is nowhere. */
  lemma MappingWithoutParamsIsDropped(
    env: Flow.FlowEnv, raw: nat, paths: seq<string>, a: RemoteMethod, b: RemoteMethod, m: Flow.Mapping,
    impl: RemoteMethod -> Executable, mappers: map<string, Mapper>, rq: Incoming, s: State)
    requires TwoRoutes(env, raw, paths, a, b, m) && env.start == [] && !impl(b).runOnError
    requires b.id !in s.reqBody && LeavesParams(impl(a), b.id)
    requires var ran := Step(rq, s, impl(a));
             !ran.hasErrors && m.bodyHash in mappers && mappers[m.bodyHash](Seen(ran, a.id)).Ok?
    ensures Flow.Build(env, raw, Flow.Query(paths, [m]), map[]).Ok?
    ensures var chain := Executables(Flow.Build(env, raw, Flow.Query(paths, [m]), map[]).value.steps, impl, mappers);
            && 2 < |chain| && Attempted(At(rq, s, chain, 2), chain[2]) && !Delivered(rq, s, chain, mappers, m, 0, 2)
  {
    hide Flow.Build, Flow.StepId, Step, Flow.PathFor, At, Flow.Skip, Delivered, LeavesParams;
    TwoRouteFlow(env, raw, paths, a, b, m);
    var steps := TwoRouteSteps(env, a, b, m);
    var chain := Executables(steps, impl, mappers);
    NothingRun(rq, s, chain);
    AtNext(rq, s, chain, 0);
    StepLeavesParams(rq, s, impl(a), b.id);
    TwoRouteMappingIsDue(env, raw, paths, a, b, m, impl, mappers, rq, s);
    FlowDeliversIff(env, raw, Flow.Query(paths, [m]), map[], impl, mappers, rq, s, m, 0, 2);
  }

  lemma NothingRun(rq: Incoming, s: State, chain: seq<Executable>)
    ensures At(rq, s, chain, 0) == s
  {
  }

  lemma CleanMapStep(rq: Incoming, s: State, m: Flow.Mapping, mappers: map<string, Mapper>)
    requires !s.hasErrors && m.bodyHash in mappers && mappers[m.bodyHash](Seen(s, m.fromId)).Ok?
    ensures !Step(rq, s, MappingExecutable(m, mappers)).hasErrors
  {
    ReportedNothing(s.(reqBody := MapReaction(m, mappers, s).reqBody));
  }
}
