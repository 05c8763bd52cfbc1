/** One source feeding several targets through one mapper: each target has its own step and gets its value. */
module FanOut {
  import opened Basics
  import opened Context
  import opened RouteTree
  import opened Dispatch
  import opened FlowRequests
  import opened FlowRun
  import Flow = RoutesFlow

  /** Where step ids tell the mappings apart, every mapping of a built flow has a step that runs it. */
  lemma StepForEach(
    env: Flow.FlowEnv, raw: nat, query: Flow.Query, cache: map<string, Flow.Mapping>, m: Flow.Mapping)
    requires query.routes != [] && Flow.Build(env, raw, query, cache).Ok?
    requires Flow.IdsAgree(cache, query.mappings) && m in query.mappings
    ensures Flow.Maps(m, m) in Flow.Build(env, raw, query, cache).value.steps
  {
    hide Flow.Resolved, Flow.FirstRefusal, Flow.Created, Flow.Merge, Flow.AllMethods, Flow.Woven, Flow.OwnSteps,
      Flow.IndexMap, Flow.MergedSerializer, Flow.StepId, Flow.IdSet, Flow.DistinctIds, Flow.Usable, Flow.IdsAgree,
      Flow.Refusal, Flow.Skip, Flow.Followed;
    var all := Flow.AllMethods(Flow.Resolved(env, raw, query.routes).value);
    var middle, now := Flow.Merge(all, Flow.Skip(env)), Flow.Created(cache, query.mappings);
    Flow.CreatedIsUsable(middle, query.mappings, env.mappers, cache);
    Flow.MergeMembers(all, Flow.Skip(env));
    Flow.UsableCached(middle, query.mappings, now);
    Flow.WovenIsFollowed(middle, query.mappings, now);
    Flow.StepsRunWhatWasAskedIff(cache, query.mappings);
    FollowedSteps(middle, query.mappings, now);
    SourceIsListed(middle, query.mappings, now, m);
    assert Flow.Maps(m, m) in Flow.Woven(middle, query.mappings, now);
  }

  /** A flow whose source feeds several targets through one mapper has a step for each of them. */
  lemma StepForEachTarget(
    env: Flow.FlowEnv, raw: nat, query: Flow.Query, from: string, mapper: string, m: Flow.Mapping)
    requires query.routes != [] && Flow.Build(env, raw, query, map[]).Ok?
    requires FansOut(query.mappings, from, mapper) && m in query.mappings
    ensures Flow.Maps(m, m) in Flow.Build(env, raw, query, map[]).value.steps
  {
    hide Flow.Build;
    FanOutIdsAgree(query.mappings, from, mapper);
    StepForEach(env, raw, query, map[], m);
  }

  /** A target of such a flow is about to run: its source ran before it, no error is recorded, and no method in between
      rewrote its params. */
  ghost predicate IsReached(
    env: Flow.FlowEnv, raw: nat, query: Flow.Query, impl: RemoteMethod -> Executable, mappers: map<string, Mapper>,
    rq: Incoming, s: State, m: Flow.Mapping, p: nat, q: nat)
  {
    && query.routes != [] && Flow.Build(env, raw, query, map[]).Ok?
    && var steps := Flow.Build(env, raw, query, map[]).value.steps;
       && p < q && Flow.OwnAt(steps, m.fromId, p) && Flow.OwnAt(steps, m.toId, q)
       && Undisturbed(steps, impl, m.toId, p, q)
       && !At(rq, s, Executables(steps, impl, mappers), q).hasErrors && !impl(steps[q].m).runOnError
  }

  /** Each target of the source gets the mapper's value at its own parameter, if it has a list of params. */
  lemma EachTargetIsFed(
    env: Flow.FlowEnv, raw: nat, query: Flow.Query, from: string, mapper: string, impl: RemoteMethod -> Executable,
    mappers: map<string, Mapper>, rq: Incoming, s: State, m: Flow.Mapping, p: nat, q: nat)
    requires FansOut(query.mappings, from, mapper) && m in query.mappings
    requires IsReached(env, raw, query, impl, mappers, rq, s, m, p, q)
    ensures var chain := Executables(Flow.Build(env, raw, query, map[]).value.steps, impl, mappers);
            HasParams(At(rq, s, chain, p + 1), m.toId) ==> Delivered(rq, s, chain, mappers, m, p, q)
  {
    hide Flow.Build, At, Executables, Undisturbed, Flow.IdsAgree;
    FanOutIdsAgree(query.mappings, from, mapper);
    FlowDeliversIff(env, raw, query, map[], impl, mappers, rq, s, m, p, q);
  }
}
