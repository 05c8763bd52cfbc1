/** A routesFlow merges several routes' chains into one and threads mapping steps between them. */
module RoutesFlow {
  import opened Basics
  import opened RouteTree

  // ---------- Mappings and steps ----------

  /** Feed the output of `fromId`, through the mapper `bodyHash`, into parameter `paramIndex` of `toId`. */
  datatype Mapping = Mapping(fromId: string, toId: string, bodyHash: string, paramIndex: nat)

  /** A step of a merged chain. A mapping step is inserted for the mapping `asked`; its handler is the one
      cached under its id, which may have been made for another mapping, `runs`. */
  datatype Step = Own(m: RemoteMethod) | Maps(asked: Mapping, runs: Mapping)

  datatype FlowChain = FlowChain(routeIndex: nat, steps: seq<Step>, serializer: Serializer)

  datatype Query = Query(routes: seq<string>, mappings: seq<Mapping>)

  datatype FlowError =
    | MissingQuery
    | InvalidQuery
    | NoRoutes
    | RouteNotFound(path: string)
    | InvalidSource(mapping: Mapping)
    | InvalidTarget(mapping: Mapping)
    | InvalidParamIndex(mapping: Mapping)
    | MissingPureFn(mapping: Mapping)

  function StepId(m: Mapping): string {
    "mionMapFrom_" + m.fromId + "_" + m.bodyHash + "_to_" + m.toId
  }

  // ---------- Merging chains ----------

  ghost function IdSet(ms: seq<RemoteMethod>): set<string> {
    set m | m in ms :: m.id
  }

  /** First occurrence of each id, ids to skip left out. */
  ghost function Merge(ms: seq<RemoteMethod>, skip: set<string>): seq<RemoteMethod> {
    if ms == [] then []
    else
      var before, last := Merge(ms[..|ms| - 1], skip), ms[|ms| - 1];
      if last.id in skip || last.id in IdSet(before) then before else before + [last]
  }

  ghost predicate DistinctIds(ms: seq<RemoteMethod>) {
    forall i, j :: 0 <= i < j < |ms| ==> ms[i].id != ms[j].id
  }

  lemma {:induction false} MergeMembers(ms: seq<RemoteMethod>, skip: set<string>)
    ensures DistinctIds(Merge(ms, skip))
    ensures IdSet(Merge(ms, skip)) == IdSet(ms) - skip
    ensures forall m :: m in Merge(ms, skip) ==> m in ms
  {
    if ms != [] {
      var front, last := ms[..|ms| - 1], ms[|ms| - 1];
      MergeMembers(front, skip);
      assert ms == front + [last];
      assert IdSet(ms) == IdSet(front) + {last.id};
      var before := Merge(front, skip);
      if last.id !in skip && last.id !in IdSet(before) {
        assert IdSet(before + [last]) == IdSet(before) + {last.id};
        forall i | 0 <= i < |before| ensures before[i].id != last.id {
          assert before[i] in before;
        }
      }
    }
  }

  /** Where an id stands in a merged list. */
  ghost predicate StandsAt(ms: seq<RemoteMethod>, id: string, at: int) {
    0 <= at < |ms| && ms[at].id == id
  }

  /** A method that precedes the first occurrence of an id precedes it in the merged list too. */
  lemma {:induction false} MergeKeepsOrder(ms: seq<RemoteMethod>, skip: set<string>, p: nat, q: nat)
    requires p < q < |ms| && ms[p].id !in skip && ms[q].id !in skip
    requires forall i :: 0 <= i < q ==> ms[i].id != ms[q].id
    ensures exists a, b :: a < b && StandsAt(Merge(ms, skip), ms[p].id, a) && StandsAt(Merge(ms, skip), ms[q].id, b)
  {
    var front, last := ms[..|ms| - 1], ms[|ms| - 1];
    var before, all := Merge(front, skip), Merge(ms, skip);
    assert before <= all;
    MergeMembers(front, skip);
    if q < |ms| - 1 {
      MergeKeepsOrder(front, skip, p, q);
      var a, b :| a < b && StandsAt(before, ms[p].id, a) && StandsAt(before, ms[q].id, b);
      assert StandsAt(all, ms[p].id, a) && StandsAt(all, ms[q].id, b);
    } else {
      assert front[p] in front;
      assert ms[p].id in IdSet(before);
      var m :| m in before && m.id == ms[p].id;
      var a :| 0 <= a < |before| && before[a] == m;
      assert last.id !in IdSet(front);
      assert all == before + [last];
      assert StandsAt(all, ms[p].id, a) && StandsAt(all, last.id, |before|);
    }
  }

  // ---------- Weaving mapping steps in ----------

  /** A step and the position it goes to in the list without steps. */
  datatype Insertion = Insertion(index: nat, step: Step)

  /** Stable, highest index first. */
  function InsertSorted(x: Insertion, s: seq<Insertion>): seq<Insertion> {
    if s == [] then [x]
    else if s[|s| - 1].index < x.index then InsertSorted(x, s[..|s| - 1]) + [s[|s| - 1]]
    else s + [x]
  }

  function SortDescending(s: seq<Insertion>): seq<Insertion> {
    if s == [] then [] else InsertSorted(s[|s| - 1], SortDescending(s[..|s| - 1]))
  }

  /** The steps bound for one position, the last one asked for first. */
  function SlotOfIndex(ins: seq<Insertion>, at: nat): seq<Step> {
    if ins == [] then []
    else
      var last := ins[|ins| - 1];
      (if last.index == at then [last.step] else []) + SlotOfIndex(ins[..|ins| - 1], at)
  }

  /** Each position's steps, then the method that stood there. */
  function Weave(ms: seq<RemoteMethod>, ins: seq<Insertion>, at: nat): seq<Step> {
    SlotOfIndex(ins, at) + if ms == [] then [] else [Own(ms[0])] + Weave(ms[1..], ins, at + 1)
  }

  ghost predicate Descending(s: seq<Insertion>) {
    forall i, j :: 0 <= i < j < |s| ==> s[j].index <= s[i].index
  }

  lemma SlotAppend(s: seq<Insertion>, x: Insertion, at: nat)
    ensures SlotOfIndex(s + [x], at) == (if x.index == at then [x.step] else []) + SlotOfIndex(s, at)
  {
    assert (s + [x])[..|s|] == s;
  }

  lemma {:induction false} InsertSortedSlots(x: Insertion, s: seq<Insertion>, at: nat)
    requires Descending(s)
    ensures SlotOfIndex(InsertSorted(x, s), at) == (if x.index == at then [x.step] else []) + SlotOfIndex(s, at)
  {
    hide SlotOfIndex;
    if s == [] || x.index <= s[|s| - 1].index {
      SlotAppend(s, x, at);
      assert s == [] ==> [x] == s + [x];
    } else {
      var front, last := s[..|s| - 1], s[|s| - 1];
      InsertSortedSlots(x, front, at);
      SlotAppend(InsertSorted(x, front), last, at);
      SlotAppend(front, last, at);
      assert s == front + [last];
    }
  }

  lemma {:induction false} InsertSortedIsOrdered(x: Insertion, s: seq<Insertion>)
    requires Descending(s)
    ensures Descending(InsertSorted(x, s)) && |InsertSorted(x, s)| == |s| + 1
    ensures forall y :: y in InsertSorted(x, s) ==> y == x || y in s
  {
    if s != [] && s[|s| - 1].index < x.index {
      InsertSortedIsOrdered(x, s[..|s| - 1]);
      assert forall y :: y in s[..|s| - 1] ==> s[|s| - 1].index <= y.index;
    }
  }

  lemma {:induction false} SortDescendingIsStable(s: seq<Insertion>)
    ensures Descending(SortDescending(s)) && |SortDescending(s)| == |s|
    ensures forall y :: y in SortDescending(s) ==> y in s
    ensures forall at: nat :: SlotOfIndex(SortDescending(s), at) == SlotOfIndex(s, at)
  {
    if s != [] {
      var front, x := s[..|s| - 1], s[|s| - 1];
      SortDescendingIsStable(front);
      InsertSortedIsOrdered(x, SortDescending(front));
      forall at: nat ensures SlotOfIndex(SortDescending(s), at) == SlotOfIndex(s, at) {
        InsertSortedSlots(x, SortDescending(front), at);
      }
    }
  }

  /** Only the slots matter to the weave. */
  lemma {:induction false} WeaveDependsOnSlots(ms: seq<RemoteMethod>, a: seq<Insertion>, b: seq<Insertion>, at: nat)
    requires forall i: nat :: at <= i ==> SlotOfIndex(a, i) == SlotOfIndex(b, i)
    ensures Weave(ms, a, at) == Weave(ms, b, at)
  {
    if ms != [] {
      WeaveDependsOnSlots(ms[1..], a, b, at + 1);
    }
  }

  lemma {:induction false} SlotIsEmptyBelow(ins: seq<Insertion>, at: nat)
    requires forall x :: x in ins ==> at < x.index
    ensures SlotOfIndex(ins, at) == []
  {
    if ins != [] {
      assert ins[|ins| - 1] in ins;
      SlotIsEmptyBelow(ins[..|ins| - 1], at);
    }
  }

  lemma WeaveHead(ms: seq<RemoteMethod>, ins: seq<Insertion>, at: nat)
    ensures Weave(ms, ins, at) ==
            SlotOfIndex(ins, at) + if ms == [] then [] else [Own(ms[0])] + Weave(ms[1..], ins, at + 1)
  {
  }

  /** Splicing a step in at its index, after all higher ones, is weaving it in. */
  lemma {:induction false} SpliceIsWeave(ms: seq<RemoteMethod>, ins: seq<Insertion>, x: Insertion, at: nat)
    requires at <= x.index <= at + |ms|
    requires forall y :: y in ins ==> x.index <= y.index
    ensures var woven, k := Weave(ms, ins, at), x.index - at;
            k <= |woven| && Weave(ms, ins + [x], at) == woven[..k] + [x.step] + woven[k..]
  {
    hide SlotOfIndex, Weave;
    SlotAppend(ins, x, at);
    WeaveHead(ms, ins, at);
    WeaveHead(ms, ins + [x], at);
    if at == x.index {
      if ms != [] {
        forall i: nat | at + 1 <= i ensures SlotOfIndex(ins + [x], i) == SlotOfIndex(ins, i) {
          SlotAppend(ins, x, i);
        }
        WeaveDependsOnSlots(ms[1..], ins + [x], ins, at + 1);
      }
      assert Weave(ms, ins + [x], at) == [x.step] + Weave(ms, ins, at);
    } else {
      SlotIsEmptyBelow(ins, at);
      SpliceIsWeave(ms[1..], ins, x, at + 1);
      var inner := Weave(ms[1..], ins, at + 1);
      assert Weave(ms, ins, at) == [Own(ms[0])] + inner;
      assert Weave(ms, ins + [x], at) == [Own(ms[0])] + Weave(ms[1..], ins + [x], at + 1);
    }
  }

  // ---------- Checking and creating mapping steps ----------

  /** The position of each id; the last one wins. */
  function IndexMap(ms: seq<RemoteMethod>): (index: map<string, nat>)
    ensures forall id :: id in index ==> index[id] < |ms| && ms[index[id]].id == id
  {
    if ms == [] then map[] else IndexMap(ms[..|ms| - 1])[ms[|ms| - 1].id := |ms| - 1]
  }

  lemma {:induction false} IndexMapFinds(ms: seq<RemoteMethod>)
    requires DistinctIds(ms)
    ensures forall i :: 0 <= i < |ms| ==> ms[i].id in IndexMap(ms) && IndexMap(ms)[ms[i].id] == i
  {
    if ms != [] {
      IndexMapFinds(ms[..|ms| - 1]);
    }
  }

  /** Why a mapping is refused, if it is. */
  function Refusal(ms: seq<RemoteMethod>, index: map<string, nat>, m: Mapping, mappers: set<string>): Option<FlowError>
    requires forall id :: id in index ==> index[id] < |ms|
  {
    if m.fromId !in index then Some(InvalidSource(m))
    else if m.toId !in index then Some(InvalidTarget(m))
    else if m.paramIndex >= ms[index[m.toId]].def.paramsCount then Some(InvalidParamIndex(m))
    else if m.bodyHash !in mappers then Some(MissingPureFn(m))
    else None
  }

  function FirstRefusal(ms: seq<RemoteMethod>, mappings: seq<Mapping>, mappers: set<string>): Option<FlowError>
  {
    if mappings == [] then None
    else
      var before := FirstRefusal(ms, mappings[..|mappings| - 1], mappers);
      if before.Some? then before else Refusal(ms, IndexMap(ms), mappings[|mappings| - 1], mappers)
  }

  /** The step cache after asking for these mappings: the first mapping with an id keeps it. */
  function Created(cache: map<string, Mapping>, mappings: seq<Mapping>): map<string, Mapping> {
    if mappings == [] then cache
    else
      var before, last := Created(cache, mappings[..|mappings| - 1]), mappings[|mappings| - 1];
      if StepId(last) in before then before else before[StepId(last) := last]
  }

  ghost predicate Grows(small: map<string, Mapping>, big: map<string, Mapping>) {
    forall id :: id in small ==> id in big && big[id] == small[id]
  }

  lemma {:induction false} CreatedGrows(cache: map<string, Mapping>, mappings: seq<Mapping>)
    ensures Grows(cache, Created(cache, mappings))
    ensures forall m :: m in mappings ==> StepId(m) in Created(cache, mappings)
  {
    if mappings != [] {
      CreatedGrows(cache, mappings[..|mappings| - 1]);
      assert mappings == mappings[..|mappings| - 1] + [mappings[|mappings| - 1]];
    }
  }

  /** Where each asked-for step goes, and which handler it gets. */
  function InsertionsOf(index: map<string, nat>, mappings: seq<Mapping>, cache: map<string, Mapping>): seq<Insertion>
    requires forall m :: m in mappings ==> m.fromId in index && StepId(m) in cache
  {
    if mappings == [] then []
    else
      var last := mappings[|mappings| - 1];
      InsertionsOf(index, mappings[..|mappings| - 1], cache) +
      [Insertion(index[last.fromId] + 1, Maps(last, cache[StepId(last)]))]
  }

  lemma {:induction false} InsertionsAreInRange(
    index: map<string, nat>, mappings: seq<Mapping>, cache: map<string, Mapping>, n: nat)
    requires forall m :: m in mappings ==> m.fromId in index && StepId(m) in cache
    requires forall id :: id in index ==> index[id] < n
    ensures |InsertionsOf(index, mappings, cache)| == |mappings|
    ensures forall x :: x in InsertionsOf(index, mappings, cache) ==> 1 <= x.index <= n && x.step.Maps?
  {
    if mappings != [] {
      InsertionsAreInRange(index, mappings[..|mappings| - 1], cache, n);
    }
  }

  lemma {:induction false} InsertionsIgnoreGrowth(
    index: map<string, nat>, mappings: seq<Mapping>, small: map<string, Mapping>, big: map<string, Mapping>)
    requires forall m :: m in mappings ==> m.fromId in index && StepId(m) in small
    requires Grows(small, big)
    ensures InsertionsOf(index, mappings, small) == InsertionsOf(index, mappings, big)
  {
    if mappings != [] {
      InsertionsIgnoreGrowth(index, mappings[..|mappings| - 1], small, big);
    }
  }

  lemma {:induction false} NoRefusal(ms: seq<RemoteMethod>, mappings: seq<Mapping>, mappers: set<string>, m: Mapping)
    requires FirstRefusal(ms, mappings, mappers).None? && m in mappings
    ensures Refusal(ms, IndexMap(ms), m, mappers).None?
  {
    var n := |mappings| - 1;
    if mappings[n] != m {
      assert mappings == mappings[..n] + [mappings[n]];
      NoRefusal(ms, mappings[..n], mappers, m);
    }
  }

  lemma {:induction false} RefusalOfPrefix(ms: seq<RemoteMethod>, mappings: seq<Mapping>, mappers: set<string>, n: nat)
    requires n <= |mappings| && FirstRefusal(ms, mappings[..n], mappers).Some?
    ensures FirstRefusal(ms, mappings, mappers) == FirstRefusal(ms, mappings[..n], mappers)
    decreases |mappings| - n
  {
    if n < |mappings| {
      assert mappings[..n + 1][..n] == mappings[..n];
      RefusalOfPrefix(ms, mappings, mappers, n + 1);
    } else {
      assert mappings[..n] == mappings;
    }
  }

  /** Every mapping's source is in the list and its step is cached. */
  ghost predicate Usable(ms: seq<RemoteMethod>, mappings: seq<Mapping>, cache: map<string, Mapping>) {
    forall m :: m in mappings ==> m.fromId in IndexMap(ms) && StepId(m) in cache
  }

  /** What collecting the insertions of some mappings has done to the cache, and what it has found. */
  ghost predicate InsertionsCollected(
    ms: seq<RemoteMethod>, mappings: seq<Mapping>, mappers: set<string>, was: map<string, Mapping>,
    cache: map<string, Mapping>, insertions: seq<Insertion>)
  {
    && cache == Created(was, mappings)
    && FirstRefusal(ms, mappings, mappers).None?
    && Usable(ms, mappings, cache)
    && insertions == InsertionsOf(IndexMap(ms), mappings, cache)
  }

  lemma NothingCollected(ms: seq<RemoteMethod>, mappers: set<string>, cache: map<string, Mapping>)
    ensures InsertionsCollected(ms, [], mappers, cache, cache, [])
  {
  }

  lemma FirstRefusalStep(ms: seq<RemoteMethod>, mappings: seq<Mapping>, m: Mapping, mappers: set<string>)
    requires FirstRefusal(ms, mappings, mappers).None?
    ensures FirstRefusal(ms, mappings + [m], mappers) == Refusal(ms, IndexMap(ms), m, mappers)
  {
    assert (mappings + [m])[..|mappings|] == mappings;
  }

  lemma CreatedStep(was: map<string, Mapping>, mappings: seq<Mapping>, m: Mapping)
    ensures Created(Created(was, mappings), [m]) == Created(was, mappings + [m])
    ensures Grows(Created(was, mappings), Created(was, mappings + [m]))
    ensures StepId(m) in Created(was, mappings + [m])
  {
    assert (mappings + [m])[..|mappings|] == mappings;
    assert [m][..0] == [];
  }

  lemma InsertionsStep(index: map<string, nat>, mappings: seq<Mapping>, m: Mapping, cache: map<string, Mapping>)
    requires forall x :: x in mappings ==> x.fromId in index && StepId(x) in cache
    requires m.fromId in index && StepId(m) in cache
    ensures InsertionsOf(index, mappings + [m], cache) ==
            InsertionsOf(index, mappings, cache) + [Insertion(index[m.fromId] + 1, Maps(m, cache[StepId(m)]))]
  {
    assert (mappings + [m])[..|mappings|] == mappings;
  }

  lemma UsableGrows(
    ms: seq<RemoteMethod>, mappings: seq<Mapping>, m: Mapping, small: map<string, Mapping>, big: map<string, Mapping>)
    requires Usable(ms, mappings, small) && Grows(small, big)
    requires m.fromId in IndexMap(ms) && StepId(m) in big
    ensures Usable(ms, mappings, big) && Usable(ms, mappings + [m], big)
  {
    hide IndexMap, StepId;
  }

  lemma CollectStep(
    ms: seq<RemoteMethod>, mappings: seq<Mapping>, m: Mapping, mappers: set<string>, was: map<string, Mapping>,
    cache: map<string, Mapping>, insertions: seq<Insertion>)
    requires InsertionsCollected(ms, mappings, mappers, was, cache, insertions)
    requires Refusal(ms, IndexMap(ms), m, mappers).None?
    ensures var now := Created(cache, [m]);
            && StepId(m) in now
            && InsertionsCollected(ms, mappings + [m], mappers, was, now,
                 insertions + [Insertion(IndexMap(ms)[m.fromId] + 1, Maps(m, now[StepId(m)]))])
  {
    hide FirstRefusal, Created, InsertionsOf, IndexMap, Grows, StepId;
    CreatedStep(was, mappings, m);
    FirstRefusalStep(ms, mappings, m, mappers);
    var now := Created(cache, [m]);
    UsableGrows(ms, mappings, m, cache, now);
    InsertionsIgnoreGrowth(IndexMap(ms), mappings, cache, now);
    InsertionsStep(IndexMap(ms), mappings, m, now);
  }

  /** The merged list with its mapping steps. */
  function Woven(ms: seq<RemoteMethod>, mappings: seq<Mapping>, cache: map<string, Mapping>): seq<Step>
    requires Usable(ms, mappings, cache)
  {
    Weave(ms, InsertionsOf(IndexMap(ms), mappings, cache), 0)
  }

  method Indexed(middle: seq<RemoteMethod>) returns (idToIndex: map<string, nat>)
    ensures idToIndex == IndexMap(middle)
  {
    idToIndex := map[];
    for i := 0 to |middle|
      invariant idToIndex == IndexMap(middle[..i])
    {
      assert middle[..i + 1][..i] == middle[..i];
      idToIndex := idToIndex[middle[i].id := i];
    }
    assert middle[..|middle|] == middle;
  }

  function OwnSteps(ms: seq<RemoteMethod>): (steps: seq<Step>)
    ensures |steps| == |ms|
  {
    if ms == [] then [] else [Own(ms[0])] + OwnSteps(ms[1..])
  }

  lemma {:induction false} NothingWoven(ms: seq<RemoteMethod>, at: nat)
    ensures Weave(ms, [], at) == OwnSteps(ms)
  {
    if ms != [] { NothingWoven(ms[1..], at + 1); }
  }

  /** Sorts the insertions and splices them in one by one. */
  method SpliceAll(middle: seq<RemoteMethod>, insertions: seq<Insertion>) returns (steps: seq<Step>)
    requires forall x :: x in insertions ==> x.index <= |middle|
    ensures steps == Weave(middle, insertions, 0)
  {
    hide SortDescending, SlotOfIndex, Weave;
    var sorted := SortDescending(insertions);
    SortDescendingIsStable(insertions);
    NothingWoven(middle, 0);
    steps := OwnSteps(middle);
    for k := 0 to |sorted|
      invariant steps == Weave(middle, sorted[..k], 0)
    {
      var x := sorted[k];
      assert sorted[..k + 1] == sorted[..k] + [x];
      assert x in sorted;
      assert forall y :: y in sorted[..k] ==> x.index <= y.index;
      SpliceIsWeave(middle, sorted[..k], x, 0);
      steps := steps[..x.index] + [x.step] + steps[x.index..];
    }
    assert sorted[..|sorted|] == sorted;
    WeaveDependsOnSlots(middle, sorted, insertions, 0);
  }

  // ---------- Merging the requested chains ----------

  /** What a flow is built from. The transform and the decoder are the application's and the host's. */
  datatype FlowEnv = FlowEnv(
    router: map<string, Chain>, start: seq<RemoteMethod>, end: seq<RemoteMethod>, mappers: set<string>,
    pathTransform: (nat, string) -> string, decode: string -> Option<Query>,
    defaultSerializer: Serializer, maxCacheSize: int)

  /** An empty transformed path falls back to the path asked for. */
  function PathFor(env: FlowEnv, raw: nat, path: string): string {
    var transformed := env.pathTransform(raw, path);
    if transformed == "" then path else transformed
  }

  function Resolved(env: FlowEnv, raw: nat, routes: seq<string>): (r: Result<seq<Chain>, FlowError>)
    ensures r.Ok? ==> |r.value| == |routes|
  {
    if routes == [] then Ok([])
    else
      var before, last := Resolved(env, raw, routes[..|routes| - 1]), routes[|routes| - 1];
      if before.Err? then before
      else if PathFor(env, raw, last) !in env.router then Err(RouteNotFound(last))
      else Ok(before.value + [env.router[PathFor(env, raw, last)]])
  }

  function AllMethods(chains: seq<Chain>): seq<RemoteMethod> {
    if chains == [] then [] else AllMethods(chains[..|chains| - 1]) + chains[|chains| - 1].methods
  }

  ghost function Skip(env: FlowEnv): set<string> {
    IdSet(env.start) + IdSet(env.end)
  }

  /** The serializer all chains share, or the default one. */
  function MergedSerializer(chains: seq<Chain>, fallback: Serializer): Serializer
    requires chains != []
  {
    if forall c :: c in chains ==> c.serializer == chains[0].serializer then chains[0].serializer else fallback
  }

  lemma CreatedIsUsable(
    ms: seq<RemoteMethod>, mappings: seq<Mapping>, mappers: set<string>, cache: map<string, Mapping>)
    requires FirstRefusal(ms, mappings, mappers).None?
    ensures Usable(ms, mappings, Created(cache, mappings))
  {
    hide FirstRefusal, Created, IndexMap, StepId;
    CreatedGrows(cache, mappings);
    forall m | m in mappings ensures m.fromId in IndexMap(ms) {
      NoRefusal(ms, mappings, mappers, m);
    }
  }

  /** The merged chain, as a function of the request and the step cache. */
  ghost function Build(env: FlowEnv, raw: nat, query: Query, cache: map<string, Mapping>): Result<FlowChain, FlowError>
    requires query.routes != []
  {
    var chains := Resolved(env, raw, query.routes);
    if chains.Err? then Err(chains.error)
    else
      var middle := Merge(AllMethods(chains.value), Skip(env));
      var refusal := FirstRefusal(middle, query.mappings, env.mappers);
      if refusal.Some? then Err(refusal.value)
      else
        CreatedIsUsable(middle, query.mappings, env.mappers, cache);
        Ok(FlowChain(
          chains.value[0].routeIndex,
          OwnSteps(env.start) + Woven(middle, query.mappings, Created(cache, query.mappings)) + OwnSteps(env.end),
          MergedSerializer(chains.value, env.defaultSerializer)))
  }

  lemma MergeStep(ms: seq<RemoteMethod>, m: RemoteMethod, skip: set<string>)
    ensures Merge(ms + [m], skip) ==
            if m.id in skip || m.id in IdSet(Merge(ms, skip)) then Merge(ms, skip) else Merge(ms, skip) + [m]
  {
    assert (ms + [m])[..|ms|] == ms;
  }

  lemma AllMethodsStep(chains: seq<Chain>, c: Chain)
    ensures AllMethods(chains + [c]) == AllMethods(chains) + c.methods
  {
    assert (chains + [c])[..|chains|] == chains;
  }

  lemma ResolvedStep(env: FlowEnv, raw: nat, routes: seq<string>, path: string)
    requires Resolved(env, raw, routes).Ok?
    ensures Resolved(env, raw, routes + [path]) ==
            if PathFor(env, raw, path) !in env.router then Err(RouteNotFound(path))
            else Ok(Resolved(env, raw, routes).value + [env.router[PathFor(env, raw, path)]])
  {
    assert (routes + [path])[..|routes|] == routes;
  }

  lemma {:induction false} ResolvedFails(env: FlowEnv, raw: nat, routes: seq<string>, n: nat)
    requires n <= |routes| && Resolved(env, raw, routes[..n]).Err?
    ensures Resolved(env, raw, routes) == Resolved(env, raw, routes[..n])
    decreases |routes| - n
  {
    if n < |routes| {
      assert routes[..n + 1][..n] == routes[..n];
      ResolvedFails(env, raw, routes, n + 1);
    } else {
      assert routes[..n] == routes;
    }
  }

  lemma IdSetStep(ms: seq<RemoteMethod>, m: RemoteMethod)
    ensures IdSet(ms + [m]) == IdSet(ms) + {m.id}
  {
    assert forall x :: x in ms + [m] <==> x in ms || x == m;
    assert m in ms + [m];
  }

  method IdsOf(ms: seq<RemoteMethod>) returns (ids: set<string>)
    ensures ids == IdSet(ms)
  {
    ids := {};
    for i := 0 to |ms|
      invariant ids == IdSet(ms[..i])
    {
      IdSetStep(ms[..i], ms[i]);
      assert ms[..i + 1] == ms[..i] + [ms[i]];
      ids := ids + {ms[i].id};
    }
    assert ms[..|ms|] == ms;
  }

  /** Adds one chain's methods to the merged list. */
  method MergeChain(methods: seq<RemoteMethod>, startIds: set<string>, endIds: set<string>,
                    seenIds: set<string>, middle: seq<RemoteMethod>, ghost before: seq<RemoteMethod>)
    returns (seen: set<string>, merged: seq<RemoteMethod>)
    requires middle == Merge(before, startIds + endIds) && seenIds == IdSet(middle)
    ensures merged == Merge(before + methods, startIds + endIds) && seen == IdSet(merged)
  {
    hide Merge, IdSet;
    seen, merged := seenIds, middle;
    assert before + [] == before;
    for i := 0 to |methods|
      invariant merged == Merge(before + methods[..i], startIds + endIds) && seen == IdSet(merged)
    {
      var next := methods[i];
      MergeStep(before + methods[..i], next, startIds + endIds);
      IdSetStep(merged, next);
      assert before + methods[..i + 1] == before + methods[..i] + [next];
      if next.id in seen { continue; }
      if next.id in startIds { continue; }
      if next.id in endIds { continue; }
      seen := seen + {next.id};
      merged := merged + [next];
    }
    assert methods[..|methods|] == methods;
  }

  lemma SerializerStep(chains: seq<Chain>, c: Chain, fallback: Serializer)
    requires chains != []
    ensures MergedSerializer(chains + [c], fallback) ==
            if MergedSerializer(chains, fallback) == c.serializer then MergedSerializer(chains, fallback) else fallback
  {
    assert c in chains + [c];
    assert forall x :: x in chains ==> x in chains + [c];
    assert chains[0] in chains;
  }

  /** Resolves the requested paths and merges their chains: the methods, the route index, the serializer. */
  method MergeChains(env: FlowEnv, raw: nat, routes: seq<string>)
    returns (r: Result<(seq<RemoteMethod>, nat, Serializer), FlowError>)
    requires routes != []
    ensures var chains := Resolved(env, raw, routes);
            r == if chains.Err? then Err(chains.error)
                 else Ok((Merge(AllMethods(chains.value), Skip(env)), chains.value[0].routeIndex,
                          MergedSerializer(chains.value, env.defaultSerializer)))
  {
    hide Merge, IdSet, Resolved, AllMethods, MergedSerializer;
    var startIds := IdsOf(env.start);
    var endIds := IdsOf(env.end);
    var seen: set<string>, middle: seq<RemoteMethod> := {}, [];
    var serializer: Option<Serializer>, index := None, 0;
    ghost var chains: seq<Chain> := [];
    NothingMerged(env, raw);
    assert routes[..0] == [];
    for k := 0 to |routes|
      invariant Resolved(env, raw, routes[..k]) == Ok(chains) && |chains| == k
      invariant middle == Merge(AllMethods(chains), startIds + endIds) && seen == IdSet(middle)
      invariant if k == 0 then serializer == None
                else && serializer == Some(MergedSerializer(chains, env.defaultSerializer))
                     && index == chains[0].routeIndex
    {
      var path := PathFor(env, raw, routes[k]);
      ResolvedStep(env, raw, routes[..k], routes[k]);
      assert routes[..k + 1] == routes[..k] + [routes[k]];
      if path !in env.router {
        ResolvedFails(env, raw, routes, k + 1);
        return Err(RouteNotFound(routes[k]));
      }
      var chain := env.router[path];
      if serializer.None? {
        serializer, index := Some(chain.serializer), chain.routeIndex;
        OneSerializer(chain, env.defaultSerializer);
        assert chains + [chain] == [chain];
      } else {
        SerializerStep(chains, chain, env.defaultSerializer);
        if serializer.value != chain.serializer { serializer := Some(env.defaultSerializer); }
      }
      seen, middle := MergeChain(chain.methods, startIds, endIds, seen, middle, AllMethods(chains));
      AllMethodsStep(chains, chain);
      chains := chains + [chain];
    }
    assert routes[..|routes|] == routes;
    r := Ok((middle, index, serializer.value));
  }

  lemma OneSerializer(c: Chain, fallback: Serializer)
    ensures MergedSerializer([c], fallback) == c.serializer
  {
  }

  lemma NothingMerged(env: FlowEnv, raw: nat)
    ensures Resolved(env, raw, []) == Ok([]) && AllMethods([]) == []
    ensures Merge([], Skip(env)) == [] && IdSet([]) == {}
  {
  }

  lemma NoMappings(ms: seq<RemoteMethod>, mappers: set<string>, cache: map<string, Mapping>)
    ensures FirstRefusal(ms, [], mappers) == None && Created(cache, []) == cache && Usable(ms, [], cache)
    ensures Woven(ms, [], cache) == OwnSteps(ms)
  {
    NothingWoven(ms, 0);
  }

  lemma GrowsReflexive(cache: map<string, Mapping>)
    ensures Grows(cache, cache)
  {
  }

  // ---------- Filing chains ----------

  function Newest(order: seq<string>, n: nat): seq<string> {
    if |order| <= n then order else order[|order| - n..]
  }

  function StripSlashes(paths: seq<string>): seq<string> {
    if paths == [] then []
    else [if "/" <= paths[0] then paths[0][1..] else paths[0]] + StripSlashes(paths[1..])
  }

  lemma NewestIs(order: seq<string>, n: nat)
    ensures Newest(order, n) == order[|order| - (if |order| < n then |order| else n)..]
  {
  }

  lemma ShiftedOrder(order: seq<string>, n: nat)
    requires NoDup(order) && n < |order|
    ensures NoDup(order[1..]) && Elements(order[1..]) == Elements(order) - {order[0]}
    ensures Newest(order[1..], n) == Newest(order, n)
    ensures order[0] in order
  {
    assert forall q :: q in order <==> q == order[0] || q in order[1..];
  }

  lemma PushedOrder(order: seq<string>, query: string)
    requires NoDup(order) && query !in order
    ensures NoDup(order + [query]) && Elements(order + [query]) == Elements(order) + {query}
    ensures query !in Elements(order)
  {
    assert forall q :: q in order + [query] <==> q == query || q in order;
  }

  lemma InElements(order: seq<string>, query: string)
    ensures query in order <==> query in Elements(order)
  {
  }

  lemma CacheIsNoBigger(order: seq<string>, flows: map<string, FlowChain>)
    requires NoDup(order) && Elements(order) == flows.Keys
    ensures |flows| == |order|
  {
    NoDupCardinality(order);
    assert |flows| == |flows.Keys|;
  }

  /** Everything filed, other than `query`, was filed before with the same chain and request. */
  ghost predicate Inherits(
    oldFlows: map<string, FlowChain>, oldFor: map<string, nat>, flows: map<string, FlowChain>,
    filedFor: map<string, nat>, query: string)
  {
    && (forall q :: q in flows && q != query ==> q in oldFlows && flows[q] == oldFlows[q])
    && (forall q :: q in filedFor && q != query ==> q in oldFor && filedFor[q] == oldFor[q])
  }

  lemma InheritsNothing(flows: map<string, FlowChain>, filedFor: map<string, nat>, query: string)
    ensures Inherits(flows, filedFor, flows, filedFor, query)
  {
  }

  lemma InheritsLess(
    oldFlows: map<string, FlowChain>, oldFor: map<string, nat>, flows: map<string, FlowChain>,
    filedFor: map<string, nat>, query: string, gone: string)
    requires Inherits(oldFlows, oldFor, flows, filedFor, query)
    ensures Inherits(oldFlows, oldFor, flows - {gone}, filedFor - {gone}, query)
  {
  }

  lemma InheritsMore(
    oldFlows: map<string, FlowChain>, oldFor: map<string, nat>, flows: map<string, FlowChain>,
    filedFor: map<string, nat>, query: string, chain: FlowChain, raw: nat)
    requires Inherits(oldFlows, oldFor, flows, filedFor, query)
    ensures Inherits(oldFlows, oldFor, flows[query := chain], filedFor[query := raw], query)
  {
  }

  lemma NewestOfFew(order: seq<string>, n: nat)
    requires |order| <= n
    ensures Newest(order, n) == order
  {
  }

  // ---------- A hit is what a rebuild would give ----------

  /** The filed chain of a query is what building it for the request it was filed for gives, now. */
  ghost predicate Fresh(env: FlowEnv, url: string, chain: FlowChain, raw: nat, steps: map<string, Mapping>) {
    && env.decode(url).Some? && env.decode(url).value.routes != []
    && Build(env, raw, env.decode(url).value, steps) == Ok(chain)
    && forall m :: m in env.decode(url).value.mappings ==> StepId(m) in steps
  }

  ghost predicate Coherent(
    env: FlowEnv, flows: map<string, FlowChain>, filedFor: map<string, nat>, steps: map<string, Mapping>)
  {
    flows.Keys == filedFor.Keys && forall url :: url in flows ==> Fresh(env, url, flows[url], filedFor[url], steps)
  }

  /** Routes and mappers are only added; nothing else changes. */
  ghost predicate Richer(env: FlowEnv, later: FlowEnv) {
    && later == env.(router := later.router, mappers := later.mappers)
    && (forall p :: p in env.router ==> p in later.router && later.router[p] == env.router[p])
    && env.mappers <= later.mappers
  }

  lemma {:induction false} ResolvedRicher(env: FlowEnv, later: FlowEnv, raw: nat, routes: seq<string>)
    requires Richer(env, later) && Resolved(env, raw, routes).Ok?
    ensures Resolved(later, raw, routes) == Resolved(env, raw, routes)
  {
    if routes != [] { ResolvedRicher(env, later, raw, routes[..|routes| - 1]); }
  }

  lemma {:induction false} NoRefusalRicher(
    ms: seq<RemoteMethod>, mappings: seq<Mapping>, few: set<string>, many: set<string>)
    requires few <= many && FirstRefusal(ms, mappings, few).None?
    ensures FirstRefusal(ms, mappings, many).None?
  {
    if mappings != [] { NoRefusalRicher(ms, mappings[..|mappings| - 1], few, many); }
  }

  lemma {:induction false} CreatedNothingNew(cache: map<string, Mapping>, mappings: seq<Mapping>)
    requires forall m :: m in mappings ==> StepId(m) in cache
    ensures Created(cache, mappings) == cache
  {
    hide StepId;
    if mappings != [] { CreatedNothingNew(cache, mappings[..|mappings| - 1]); }
  }

  lemma WovenIgnoresGrowth(
    ms: seq<RemoteMethod>, mappings: seq<Mapping>, small: map<string, Mapping>, big: map<string, Mapping>)
    requires Usable(ms, mappings, small) && Grows(small, big)
    ensures Usable(ms, mappings, big) && Woven(ms, mappings, small) == Woven(ms, mappings, big)
  {
    hide StepId, IndexMap, InsertionsOf, Weave;
    InsertionsIgnoreGrowth(IndexMap(ms), mappings, small, big);
  }

  /** A build that succeeded gives the same chain after routes, mappers and steps were added. */
  lemma BuildIsStable(
    env: FlowEnv, later: FlowEnv, raw: nat, query: Query, small: map<string, Mapping>, big: map<string, Mapping>)
    requires query.routes != [] && Richer(env, later) && Grows(small, big)
    requires forall m :: m in query.mappings ==> StepId(m) in small
    requires Build(env, raw, query, small).Ok?
    ensures Build(later, raw, query, big) == Build(env, raw, query, small)
  {
    hide StepId, Resolved, FirstRefusal, Created, Merge, AllMethods, Woven, OwnSteps, IndexMap, MergedSerializer, IdSet;
    ResolvedRicher(env, later, raw, query.routes);
    var middle := Merge(AllMethods(Resolved(env, raw, query.routes).value), Skip(env));
    NoRefusalRicher(middle, query.mappings, env.mappers, later.mappers);
    CreatedIsUsable(middle, query.mappings, env.mappers, small);
    CreatedNothingNew(small, query.mappings);
    CreatedNothingNew(big, query.mappings);
    WovenIgnoresGrowth(middle, query.mappings, small, big);
  }

  lemma CreatedGrowsStep(was: map<string, Mapping>, mappings: seq<Mapping>)
    ensures forall m :: m in mappings ==> StepId(m) in Created(was, mappings)
    ensures Created(Created(was, mappings), mappings) == Created(was, mappings)
  {
    CreatedGrows(was, mappings);
    CreatedNothingNew(Created(was, mappings), mappings);
  }

  /** Building again, with the steps the first build created, gives the same. */
  lemma RebuildAfterCreate(env: FlowEnv, raw: nat, query: Query, was: map<string, Mapping>)
    requires query.routes != []
    ensures Build(env, raw, query, Created(was, query.mappings)) == Build(env, raw, query, was)
    ensures forall m :: m in query.mappings ==> StepId(m) in Created(was, query.mappings)
  {
    hide StepId, Resolved, FirstRefusal, Created, Merge, AllMethods, Woven, OwnSteps, IndexMap, MergedSerializer, IdSet;
    CreatedGrowsStep(was, query.mappings);
  }

  /** Coherence survives every growth of the router, the mappers and the steps. */
  lemma CoherentGrows(
    env: FlowEnv, later: FlowEnv, flows: map<string, FlowChain>, filedFor: map<string, nat>,
    small: map<string, Mapping>, big: map<string, Mapping>)
    requires Coherent(env, flows, filedFor, small) && Richer(env, later) && Grows(small, big)
    ensures Coherent(later, flows, filedFor, big)
  {
    hide Build, StepId;
    forall url | url in flows ensures Fresh(later, url, flows[url], filedFor[url], big) {
      BuildIsStable(env, later, filedFor[url], env.decode(url).value, small, big);
    }
  }

  lemma CoherentAfterFiling(
    env: FlowEnv, query: string, oldFlows: map<string, FlowChain>, oldFor: map<string, nat>,
    flows: map<string, FlowChain>, filedFor: map<string, nat>, steps: map<string, Mapping>)
    requires Coherent(env, oldFlows, oldFor, steps) && flows.Keys == filedFor.Keys
    requires Inherits(oldFlows, oldFor, flows, filedFor, query)
    requires query in flows ==> Fresh(env, query, flows[query], filedFor[query], steps)
    ensures Coherent(env, flows, filedFor, steps)
  {
    hide Fresh;
  }

  /** What the router answers: the errors in their order, the filed chain, or the one built now. */
  ghost predicate Served(
    env: FlowEnv, urlQuery: string, flows: map<string, FlowChain>, steps: map<string, Mapping>, raw: nat,
    r: Result<(FlowChain, seq<string>, seq<Mapping>), FlowError>)
  {
    if urlQuery == "" then r == Err(MissingQuery)
    else if env.decode(urlQuery).None? then r == Err(InvalidQuery)
    else
      var query := env.decode(urlQuery).value;
      if query.routes == [] then r == Err(NoRoutes)
      else
        var chain := if urlQuery in flows then Ok(flows[urlQuery]) else Build(env, raw, query, steps);
        r == if chain.Err? then Err(chain.error) else Ok((chain.value, StripSlashes(query.routes), query.mappings))
  }

  /** The router's flow state: mapping steps by id (each handler remembers the mapping it was created for),
      merged chains by query, and the order those queries were filed in. */
  class FlowCaches {
    var mappingMethods: map<string, Mapping>
    var routesFlowCache: map<string, FlowChain>
    var cacheOrder: seq<string>
    /** the request each cached chain was built for */
    ghost var filedFor: map<string, nat>

    constructor ()
      ensures Valid() && mappingMethods == map[] && routesFlowCache == map[] && cacheOrder == [] && filedFor == map[]
    {
      mappingMethods, routesFlowCache, cacheOrder := map[], map[], [];
      filedFor := map[];
    }

    /** The order lists the cached queries, each once, and none is empty. */
    ghost predicate Valid()
      reads this
    {
      && NoDup(cacheOrder) && "" !in cacheOrder
      && Elements(cacheOrder) == routesFlowCache.Keys == filedFor.Keys
    }

    /** Creates the step of a mapping, or reuses the one cached under its id. */
    method CreateMappingMethod(mapping: Mapping) returns (step: Step)
      modifies this`mappingMethods
      ensures mappingMethods == Created(old(mappingMethods), [mapping])
      ensures step == Maps(mapping, mappingMethods[StepId(mapping)])
    {
      var id := StepId(mapping);
      if id !in mappingMethods { mappingMethods := mappingMethods[id := mapping]; }
      step := Maps(mapping, mappingMethods[id]);
      assert [mapping][..0] == [];
    }

    /** Collects one insertion per mapping, creating the steps on the way; stops at the first refusal. */
    method CollectInsertions(middle: seq<RemoteMethod>, mappings: seq<Mapping>, mappers: set<string>)
      returns (r: Result<seq<Insertion>, FlowError>)
      modifies this`mappingMethods
      ensures var refusal := FirstRefusal(middle, mappings, mappers);
              if refusal.Some? then r == Err(refusal.value) && Grows(old(mappingMethods), mappingMethods)
              else r.Ok? && InsertionsCollected(middle, mappings, mappers, old(mappingMethods), mappingMethods, r.value)
    {
      hide FirstRefusal, Created, InsertionsOf, IndexMap, Grows;
      var idToIndex := Indexed(middle);
      var insertions: seq<Insertion> := [];
      NothingCollected(middle, mappers, mappingMethods);
      assert mappings[..0] == [];
      for k := 0 to |mappings|
        invariant InsertionsCollected(middle, mappings[..k], mappers, old(mappingMethods), mappingMethods, insertions)
      {
        var mapping := mappings[k];
        assert mappings[..k + 1] == mappings[..k] + [mapping];
        FirstRefusalStep(middle, mappings[..k], mapping, mappers);
        var refusal := Refusal(middle, idToIndex, mapping, mappers);
        if refusal.Some? {
          RefusalOfPrefix(middle, mappings, mappers, k + 1);
          CreatedGrows(old(mappingMethods), mappings[..k]);
          return Err(refusal.value);
        }
        CollectStep(middle, mappings[..k], mapping, mappers, old(mappingMethods), mappingMethods, insertions);
        var step := CreateMappingMethod(mapping);
        insertions := insertions + [Insertion(idToIndex[mapping.fromId] + 1, step)];
      }
      assert mappings[..|mappings|] == mappings;
      r := Ok(insertions);
    }

    /** Puts a step right after its source for every mapping, highest position first. */
    method InsertMappingMethods(middle: seq<RemoteMethod>, mappings: seq<Mapping>, mappers: set<string>)
      returns (r: Result<seq<Step>, FlowError>)
      modifies this`mappingMethods
      ensures var refusal := FirstRefusal(middle, mappings, mappers);
              if refusal.Some? then r == Err(refusal.value) && Grows(old(mappingMethods), mappingMethods)
              else
                && mappingMethods == Created(old(mappingMethods), mappings)
                && Usable(middle, mappings, mappingMethods)
                && r == Ok(Woven(middle, mappings, mappingMethods))
    {
      hide FirstRefusal, Created, InsertionsOf, IndexMap, Grows, Weave;
      var insertions := CollectInsertions(middle, mappings, mappers);
      if insertions.Err? { return Err(insertions.error); }
      InsertionsAreInRange(IndexMap(middle), mappings, mappingMethods, |middle|);
      var steps := SpliceAll(middle, insertions.value);
      r := Ok(steps);
    }

    /** Files a chain, dropping the oldest ones to make room. */
    method AddToRoutesFlowCache(maxSize: int, query: string, chain: FlowChain, ghost raw: nat)
      requires Valid() && query !in cacheOrder && query != ""
      modifies this`routesFlowCache, this`cacheOrder, this`filedFor
      ensures Valid()
      ensures maxSize <= 0 ==> unchanged(this)
      ensures maxSize > 0 ==> |cacheOrder| <= maxSize
      ensures maxSize > 0 ==>
                var kept := if |old(cacheOrder)| < maxSize then |old(cacheOrder)| else maxSize - 1;
                cacheOrder == old(cacheOrder)[|old(cacheOrder)| - kept..] + [query]
      ensures maxSize > 0 ==> query in routesFlowCache && routesFlowCache[query] == chain && filedFor[query] == raw
      ensures Inherits(old(routesFlowCache), old(filedFor), routesFlowCache, filedFor, query)
    {
      hide NoDup, Elements, Newest, Inherits;
      InheritsNothing(routesFlowCache, filedFor, query);
      if maxSize <= 0 { return; }
      while |cacheOrder| >= maxSize
        invariant Valid() && query !in cacheOrder
        invariant Newest(cacheOrder, maxSize - 1) == Newest(old(cacheOrder), maxSize - 1)
        invariant Inherits(old(routesFlowCache), old(filedFor), routesFlowCache, filedFor, query)
      {
        var oldest := cacheOrder[0];
        ShiftedOrder(cacheOrder, maxSize - 1);
        InheritsLess(old(routesFlowCache), old(filedFor), routesFlowCache, filedFor, query, oldest);
        cacheOrder := cacheOrder[1..];
        if oldest != "" {
          routesFlowCache := routesFlowCache - {oldest};
          filedFor := filedFor - {oldest};
        }
      }
      NewestIs(old(cacheOrder), maxSize - 1);
      PushedOrder(cacheOrder, query);
      NewestOfFew(cacheOrder, maxSize - 1);
      InheritsMore(old(routesFlowCache), old(filedFor), routesFlowCache, filedFor, query, chain, raw);
      routesFlowCache := routesFlowCache[query := chain];
      filedFor := filedFor[query := raw];
      cacheOrder := cacheOrder + [query];
    }

    /** Builds the merged chain of several paths. */
    method BuildMergedExecutionChain(env: FlowEnv, raw: nat, routes: seq<string>, mappings: seq<Mapping>)
      returns (r: Result<FlowChain, FlowError>)
      requires routes != []
      modifies this`mappingMethods
      ensures r == Build(env, raw, Query(routes, mappings), old(mappingMethods))
      ensures Grows(old(mappingMethods), mappingMethods)
      ensures r.Ok? ==> mappingMethods == Created(old(mappingMethods), mappings)
    {
      hide FirstRefusal, Created, Merge, Resolved, Grows, AllMethods, Woven, MergedSerializer, IdSet;
      var merged := MergeChains(env, raw, routes);
      CreatedGrows(mappingMethods, mappings);
      if merged.Err? { GrowsReflexive(mappingMethods); return Err(merged.error); }
      var middle, index, serializer := merged.value.0, merged.value.1, merged.value.2;
      var steps := OwnSteps(middle);
      if mappings != [] {
        var spliced := InsertMappingMethods(middle, mappings, env.mappers);
        if spliced.Err? { return Err(spliced.error); }
        steps := spliced.value;
      } else {
        NoMappings(middle, env.mappers, mappingMethods);
      }
      r := Ok(FlowChain(index, OwnSteps(env.start) + steps + OwnSteps(env.end), serializer));
    }

    /** The chain for a flow request: filed, or built and filed. */
    method GetRoutesFlowExecutionChain(env: FlowEnv, raw: nat, urlQuery: string)
      returns (r: Result<(FlowChain, seq<string>, seq<Mapping>), FlowError>)
      requires Valid() && Coherent(env, routesFlowCache, filedFor, mappingMethods)
      modifies this
      ensures Valid() && Coherent(env, routesFlowCache, filedFor, mappingMethods)
      ensures |routesFlowCache| <= |old(routesFlowCache)| || |routesFlowCache| <= env.maxCacheSize
      ensures Grows(old(mappingMethods), mappingMethods)
      ensures r.Ok? && env.maxCacheSize > 0 ==> urlQuery in routesFlowCache && routesFlowCache[urlQuery] == r.value.0
      ensures Served(env, urlQuery, old(routesFlowCache), old(mappingMethods), raw, r)
    {
      hide Build, Grows, Coherent, Inherits, NoDup, Elements;
      GrowsReflexive(mappingMethods);
      if urlQuery == "" { return Err(MissingQuery); }
      var decoded := env.decode(urlQuery);
      if decoded.None? { return Err(InvalidQuery); }
      var query := decoded.value;
      if query.routes == [] { return Err(NoRoutes); }
      var routeIds := StripSlashes(query.routes);
      if urlQuery in routesFlowCache {
        return Ok((routesFlowCache[urlQuery], routeIds, query.mappings));
      }
      var built := BuildMergedExecutionChain(env, raw, query.routes, query.mappings);
      CoherentGrows(env, env, routesFlowCache, filedFor, old(mappingMethods), mappingMethods);
      if built.Err? { return Err(built.error); }
      CacheIsNoBigger(cacheOrder, routesFlowCache);
      assert urlQuery !in cacheOrder by { InElements(cacheOrder, urlQuery); }
      AddToRoutesFlowCache(env.maxCacheSize, urlQuery, built.value, raw);
      CacheIsNoBigger(cacheOrder, routesFlowCache);
      RebuildAfterCreate(env, raw, query, old(mappingMethods));
      CoherentAfterFiling(env, urlQuery, old(routesFlowCache), old(filedFor), routesFlowCache, filedFor,
        mappingMethods);
      r := Ok((built.value, routeIds, query.mappings));
    }
  }

  // ---------- What the weave means ----------

  /** The steps whose source is `id`, the last one asked for first. */
  function StepsFrom(id: string, mappings: seq<Mapping>, cache: map<string, Mapping>): seq<Step>
    requires forall m :: m in mappings ==> StepId(m) in cache
  {
    if mappings == [] then []
    else
      var last := mappings[|mappings| - 1];
      (if last.fromId == id then [Maps(last, cache[StepId(last)])] else []) +
      StepsFrom(id, mappings[..|mappings| - 1], cache)
  }

  /** Every method followed at once by the steps it feeds. */
  function Followed(ms: seq<RemoteMethod>, mappings: seq<Mapping>, cache: map<string, Mapping>): seq<Step>
    requires forall m :: m in mappings ==> StepId(m) in cache
  {
    if ms == [] then []
    else [Own(ms[0])] + StepsFrom(ms[0].id, mappings, cache) + Followed(ms[1..], mappings, cache)
  }

  lemma {:induction false} SlotHoldsStepsFrom(
    index: map<string, nat>, mappings: seq<Mapping>, cache: map<string, Mapping>, id: string)
    requires forall m :: m in mappings ==> m.fromId in index && StepId(m) in cache
    requires id in index && forall other :: other in index && index[other] == index[id] ==> other == id
    ensures SlotOfIndex(InsertionsOf(index, mappings, cache), index[id] + 1) == StepsFrom(id, mappings, cache)
  {
    hide StepId;
    if mappings != [] {
      var front, last := mappings[..|mappings| - 1], mappings[|mappings| - 1];
      SlotHoldsStepsFrom(index, front, cache, id);
      SlotAppend(InsertionsOf(index, front, cache), Insertion(index[last.fromId] + 1, Maps(last, cache[StepId(last)])),
        index[id] + 1);
    }
  }

  lemma {:induction false} WeaveFollows(
    ms: seq<RemoteMethod>, mappings: seq<Mapping>, cache: map<string, Mapping>, at: nat)
    requires DistinctIds(ms) && Usable(ms, mappings, cache) && at <= |ms|
    ensures var ins := InsertionsOf(IndexMap(ms), mappings, cache);
            Weave(ms[at..], ins, at) == SlotOfIndex(ins, at) + Followed(ms[at..], mappings, cache)
    decreases |ms| - at
  {
    hide StepId, IndexMap, SlotOfIndex, InsertionsOf;
    if at < |ms| {
      WeaveFollows(ms, mappings, cache, at + 1);
      IndexMapFinds(ms);
      SlotHoldsStepsFrom(IndexMap(ms), mappings, cache, ms[at].id);
      assert ms[at..][1..] == ms[at + 1..];
    }
  }

  /** Splicing in descending index order gives each method followed at once by the steps it feeds. */
  lemma WovenIsFollowed(ms: seq<RemoteMethod>, mappings: seq<Mapping>, cache: map<string, Mapping>)
    requires DistinctIds(ms) && Usable(ms, mappings, cache)
    ensures Woven(ms, mappings, cache) == Followed(ms, mappings, cache)
  {
    hide StepId, IndexMap, SlotOfIndex, InsertionsOf, Followed, Weave;
    var ins := InsertionsOf(IndexMap(ms), mappings, cache);
    WeaveFollows(ms, mappings, cache, 0);
    InsertionsAreInRange(IndexMap(ms), mappings, cache, |ms|);
    SlotIsEmptyBelow(ins, 0);
    assert ms[0..] == ms;
  }

  function Erase(steps: seq<Step>): seq<RemoteMethod> {
    if steps == [] then []
    else (if steps[0].Own? then [steps[0].m] else []) + Erase(steps[1..])
  }

  lemma {:induction false} EraseConcat(a: seq<Step>, b: seq<Step>)
    ensures Erase(a + b) == Erase(a) + Erase(b)
  {
    if a != [] {
      EraseConcat(a[1..], b);
      assert (a + b)[1..] == a[1..] + b;
    } else {
      assert a + b == b;
    }
  }

  lemma {:induction false} EraseMaps(steps: seq<Step>)
    requires forall s :: s in steps ==> s.Maps?
    ensures Erase(steps) == []
  {
    if steps != [] {
      assert steps[0] in steps;
      EraseMaps(steps[1..]);
    }
  }

  lemma {:induction false} StepsFromAre(id: string, mappings: seq<Mapping>, cache: map<string, Mapping>)
    requires forall m :: m in mappings ==> StepId(m) in cache
    ensures forall s :: s in StepsFrom(id, mappings, cache) ==>
              s.Maps? && s.asked in mappings && s.asked.fromId == id && s.runs == cache[StepId(s.asked)]
    ensures forall m :: m in mappings && m.fromId == id ==> Maps(m, cache[StepId(m)]) in StepsFrom(id, mappings, cache)
  {
    hide StepId;
    if mappings != [] {
      var front, last := mappings[..|mappings| - 1], mappings[|mappings| - 1];
      StepsFromAre(id, front, cache);
      assert mappings == front + [last];
    }
  }

  /** Erasing the steps gives back the list they were spliced into. */
  lemma {:induction false} EraseFollowed(ms: seq<RemoteMethod>, mappings: seq<Mapping>, cache: map<string, Mapping>)
    requires forall m :: m in mappings ==> StepId(m) in cache
    ensures Erase(Followed(ms, mappings, cache)) == ms
  {
    hide StepId, StepsFrom;
    if ms != [] {
      var own, fed, rest := [Own(ms[0])], StepsFrom(ms[0].id, mappings, cache), Followed(ms[1..], mappings, cache);
      EraseFollowed(ms[1..], mappings, cache);
      StepsFromAre(ms[0].id, mappings, cache);
      EraseMaps(fed);
      EraseConcat(own + fed, rest);
      EraseConcat(own, fed);
      assert Erase(own) == [ms[0]];
    }
  }

  /** Between a step and the method before it there are only steps, and that method is the step's source. */
  ghost predicate Hugs(steps: seq<Step>, source: int, step: int) {
    && 0 <= source < step < |steps| && steps[step].Maps?
    && steps[source].Own? && steps[source].m.id == steps[step].asked.fromId
    && forall k :: source < k <= step ==> steps[k].Maps?
  }

  lemma HugsShift(front: seq<Step>, rest: seq<Step>, source: int, step: int)
    requires Hugs(rest, source, step)
    ensures Hugs(front + rest, |front| + source, |front| + step)
  {
    var all, off := front + rest, |front|;
    forall k | off + source < k <= off + step ensures all[k].Maps? {
      assert all[k] == rest[k - off];
    }
  }

  lemma {:induction false} StepsHugTheirSource(
    ms: seq<RemoteMethod>, mappings: seq<Mapping>, cache: map<string, Mapping>, step: nat)
    requires forall m :: m in mappings ==> StepId(m) in cache
    requires step < |Followed(ms, mappings, cache)| && Followed(ms, mappings, cache)[step].Maps?
    ensures exists source :: Hugs(Followed(ms, mappings, cache), source, step)
  {
    hide StepId, StepsFrom;
    var steps, fed := Followed(ms, mappings, cache), StepsFrom(ms[0].id, mappings, cache);
    StepsFromAre(ms[0].id, mappings, cache);
    if step <= |fed| {
      forall k | 0 < k <= step ensures steps[k] in fed {
        assert steps[k] == fed[k - 1];
      }
      assert Hugs(steps, 0, step);
    } else {
      hide Hugs;
      var front, rest := [Own(ms[0])] + fed, Followed(ms[1..], mappings, cache);
      StepsHugTheirSource(ms[1..], mappings, cache, step - |front|);
      var source :| Hugs(rest, source, step - |front|);
      HugsShift(front, rest, source, step - |front|);
    }
  }

  lemma {:induction false} ErasedIndex(steps: seq<Step>, p: nat)
    requires p < |steps| && steps[p].Own?
    ensures |Erase(steps[..p])| < |Erase(steps)| && Erase(steps)[|Erase(steps[..p])|] == steps[p].m
  {
    EraseConcat(steps[..p], steps[p..]);
    assert steps == steps[..p] + steps[p..];
  }

  lemma {:induction false} ErasedGrows(steps: seq<Step>, p: nat, q: nat)
    requires p < q <= |steps| && steps[p].Own?
    ensures |Erase(steps[..p])| < |Erase(steps[..q])|
  {
    EraseConcat(steps[..p], steps[p..q]);
    assert steps[..q] == steps[..p] + steps[p..q];
    assert steps[p..q][0] == steps[p];
  }

  /** With distinct ids an id names one position of the woven list. */
  lemma OwnIsUnique(steps: seq<Step>, p: nat, q: nat)
    requires DistinctIds(Erase(steps))
    requires p < |steps| && q < |steps| && steps[p].Own? && steps[q].Own? && steps[p].m.id == steps[q].m.id
    ensures p == q
  {
    ErasedIndex(steps, p);
    ErasedIndex(steps, q);
    if p < q { ErasedGrows(steps, p, q); }
    if q < p { ErasedGrows(steps, q, p); }
  }

  /** A mapping step runs after its source, and before its target when the source does. */
  lemma StepFollowsSource(
    ms: seq<RemoteMethod>, mappings: seq<Mapping>, cache: map<string, Mapping>, source: nat, step: nat, target: nat)
    requires DistinctIds(ms) && Usable(ms, mappings, cache)
    requires var w := Woven(ms, mappings, cache);
             && source < |w| && step < |w| && target < |w| && w[step].Maps?
             && w[source].Own? && w[source].m.id == w[step].asked.fromId
             && w[target].Own? && w[target].m.id == w[step].asked.toId
    ensures source < step
    ensures step < target <==> source < target
  {
    hide StepId, IndexMap, Woven, Followed, Erase, DistinctIds;
    var w := Woven(ms, mappings, cache);
    WovenIsFollowed(ms, mappings, cache);
    EraseFollowed(ms, mappings, cache);
    StepsHugTheirSource(ms, mappings, cache, step);
    var s :| Hugs(w, s, step);
    OwnIsUnique(w, s, source);
  }

  /** A method's place among the methods of a woven list is its place in the list it was woven from. */
  lemma OwnPlaceIsIndex(ms: seq<RemoteMethod>, steps: seq<Step>, id: string, at: nat)
    requires DistinctIds(ms) && Erase(steps) == ms && OwnAt(steps, id, at)
    ensures id in IndexMap(ms) && |Erase(steps[..at])| == IndexMap(ms)[id]
  {
    hide Erase;
    ErasedIndex(steps, at);
    IndexMapFinds(ms);
  }

  /** A mapping's step runs before its target exactly when the source is listed before the target. */
  lemma StepPrecedesTargetIff(
    ms: seq<RemoteMethod>, mappings: seq<Mapping>, cache: map<string, Mapping>, m: Mapping, step: nat, target: nat)
    requires DistinctIds(ms) && Usable(ms, mappings, cache)
    requires var w := Woven(ms, mappings, cache);
             step < |w| && w[step].Maps? && w[step].asked == m && OwnAt(w, m.toId, target)
    ensures m.fromId in IndexMap(ms) && m.toId in IndexMap(ms)
    ensures step < target <==> IndexMap(ms)[m.fromId] < IndexMap(ms)[m.toId]
  {
    hide StepId, IndexMap, Woven, Followed, Erase, DistinctIds;
    var w := Woven(ms, mappings, cache);
    WovenErases(ms, mappings, cache);
    WovenIsFollowed(ms, mappings, cache);
    UsableCached(ms, mappings, cache);
    StepsHugTheirSource(ms, mappings, cache, step);
    var source :| Hugs(w, source, step);
    StepFollowsSource(ms, mappings, cache, source, step, target);
    OwnPlaceIsIndex(ms, w, m.fromId, source);
    OwnPlaceIsIndex(ms, w, m.toId, target);
    if source < target { ErasedGrows(w, source, target); }
    if target < source { ErasedGrows(w, target, source); }
  }

  /** Asked to feed an earlier method from a later one, the step stands after its target. */
  lemma BackwardMappingRunsLate(a: RemoteMethod, b: RemoteMethod, m: Mapping)
    requires a.id != b.id && m.fromId == b.id && m.toId == a.id
    ensures Usable([a, b], [m], Created(map[], [m]))
    ensures Woven([a, b], [m], Created(map[], [m])) == [Own(a), Own(b), Maps(m, m)]
  {
    hide StepId, Woven, IndexMap, Usable, Created;
    var now := Created(map[], [m]);
    BackwardIsUsable(a, b, m);
    WovenIsFollowed([a, b], [m], now);
    assert [a, b][1..] == [b] && [b][1..] == [] && [m][..0] == [];
    assert StepsFrom(a.id, [m], now) == [] && StepsFrom(b.id, [m], now) == [Maps(m, m)];
    assert Followed([b], [m], now) == [Own(b), Maps(m, m)];
  }

  lemma BackwardIsUsable(a: RemoteMethod, b: RemoteMethod, m: Mapping)
    requires a.id != b.id && m.fromId == b.id && m.toId == a.id
    ensures Usable([a, b], [m], Created(map[], [m])) && Created(map[], [m]) == map[StepId(m) := m]
  {
    hide StepId, IndexMap;
    IndexMapFinds([a, b]);
    assert [a, b][0] == a && [a, b][1] == b && [m][..0] == [];
    assert Created(map[], []) == map[];
  }

  lemma NoInsertions(index: map<string, nat>, cache: map<string, Mapping>)
    ensures InsertionsOf(index, [], cache) == []
  {
  }

  function AllSteps(mappings: seq<Mapping>, cache: map<string, Mapping>): seq<Step>
    requires forall m :: m in mappings ==> StepId(m) in cache
  {
    if mappings == [] then []
    else
      var last := mappings[|mappings| - 1];
      AllSteps(mappings[..|mappings| - 1], cache) + [Maps(last, cache[StepId(last)])]
  }

  lemma {:induction false} WeaveAdds(ms: seq<RemoteMethod>, ins: seq<Insertion>, x: Insertion, at: nat)
    ensures multiset(Weave(ms, ins + [x], at)) ==
            multiset(Weave(ms, ins, at)) + (if at <= x.index <= at + |ms| then multiset{x.step} else multiset{})
  {
    hide SlotOfIndex, Weave;
    SlotAppend(ins, x, at);
    WeaveHead(ms, ins, at);
    WeaveHead(ms, ins + [x], at);
    if ms != [] {
      WeaveAdds(ms[1..], ins, x, at + 1);
    }
  }

  /** One step per mapping, duplicates included, and nothing else is added. */
  lemma {:induction false} WovenAddsOneStepPerMapping(
    ms: seq<RemoteMethod>, mappings: seq<Mapping>, cache: map<string, Mapping>)
    requires Usable(ms, mappings, cache)
    ensures multiset(Woven(ms, mappings, cache)) == multiset(OwnSteps(ms)) + multiset(AllSteps(mappings, cache))
  {
    hide StepId, IndexMap, Weave, InsertionsOf, OwnSteps;
    if mappings == [] {
      NoInsertions(IndexMap(ms), cache);
      NothingWoven(ms, 0);
    } else {
      var front, last := mappings[..|mappings| - 1], mappings[|mappings| - 1];
      assert front + [last] == mappings;
      WovenAddsOneStepPerMapping(ms, front, cache);
      InsertionsStep(IndexMap(ms), front, last, cache);
      WeaveAdds(ms, InsertionsOf(IndexMap(ms), front, cache),
        Insertion(IndexMap(ms)[last.fromId] + 1, Maps(last, cache[StepId(last)])), 0);
    }
  }

  // ---------- Whose handler a step runs ----------

  /** The first mapping with a given step id. */
  function FirstWith(id: string, mappings: seq<Mapping>): Option<Mapping> {
    if mappings == [] then None
    else
      var before, last := FirstWith(id, mappings[..|mappings| - 1]), mappings[|mappings| - 1];
      if before.Some? then before else if StepId(last) == id then Some(last) else None
  }

  lemma {:induction false} CreatedKeepsFirst(was: map<string, Mapping>, mappings: seq<Mapping>, id: string)
    ensures id in Created(was, mappings) <==> id in was || FirstWith(id, mappings).Some?
    ensures id in Created(was, mappings) ==>
              Created(was, mappings)[id] == if id in was then was[id] else FirstWith(id, mappings).value
  {
    hide StepId;
    if mappings != [] { CreatedKeepsFirst(was, mappings[..|mappings| - 1], id); }
  }

  lemma {:induction false} FirstWithIs(id: string, mappings: seq<Mapping>)
    ensures FirstWith(id, mappings).Some? ==>
              FirstWith(id, mappings).value in mappings && StepId(FirstWith(id, mappings).value) == id
    ensures forall m :: m in mappings && StepId(m) == id ==> FirstWith(id, mappings).Some?
  {
    hide StepId;
    if mappings != [] {
      var n := |mappings| - 1;
      FirstWithIs(id, mappings[..n]);
      assert mappings == mappings[..n] + [mappings[n]];
    }
  }

  /** Mappings with one step id are one mapping, and the cache has no other under that id. */
  ghost predicate IdsAgree(was: map<string, Mapping>, mappings: seq<Mapping>) {
    && (forall m, n :: m in mappings && n in mappings && StepId(m) == StepId(n) ==> m == n)
    && (forall m :: m in mappings && StepId(m) in was ==> was[StepId(m)] == m)
  }

  /** Every step runs the mapping it was inserted for exactly when the ids agree. */
  lemma StepsRunWhatWasAskedIff(was: map<string, Mapping>, mappings: seq<Mapping>)
    ensures forall m :: m in mappings ==> StepId(m) in Created(was, mappings)
    ensures (forall m :: m in mappings ==> Created(was, mappings)[StepId(m)] == m) <==> IdsAgree(was, mappings)
  {
    hide StepId, Created, FirstWith;
    CreatedGrows(was, mappings);
    var now := Created(was, mappings);
    if forall m :: m in mappings ==> now[StepId(m)] == m {
      forall m, n | m in mappings && n in mappings && StepId(m) == StepId(n) ensures m == n {
        assert now[StepId(m)] == m && now[StepId(n)] == n;
      }
      forall m | m in mappings && StepId(m) in was ensures was[StepId(m)] == m {
        CreatedKeepsFirst(was, mappings, StepId(m));
      }
    }
    if IdsAgree(was, mappings) {
      forall m | m in mappings ensures now[StepId(m)] == m {
        CreatedKeepsFirst(was, mappings, StepId(m));
        FirstWithIs(StepId(m), mappings);
      }
    }
  }

  /** The id leaves out the parameter: asked for two parameters of one target, both steps write the first. */
  lemma StepIdForgetsTheParameter(m: Mapping, other: nat)
    requires other != m.paramIndex
    ensures StepId(m) == StepId(m.(paramIndex := other))
    ensures var both := [m, m.(paramIndex := other)];
            !IdsAgree(map[], both) && Created(map[], both)[StepId(both[1])] == m
  {
    var second := m.(paramIndex := other);
    var both := [m, second];
    assert both[..1] == [m] && [m][..0] == [];
    assert both[0] == m && both[1] == second;
    assert Created(map[], [m]) == map[StepId(m) := m];
    assert Created(map[], both) == map[StepId(m) := m];
    assert m in both && second in both && m != second && StepId(m) == StepId(second);
  }

  // ---------- Order in the whole merged chain ----------

  lemma {:induction false} ErasedOrder(steps: seq<Step>, i: nat, j: nat)
    requires i < j < |Erase(steps)|
    ensures exists a, b :: 0 <= a < b < |steps| && steps[a] == Own(Erase(steps)[i]) && steps[b] == Own(Erase(steps)[j])
  {
    var rest, n := steps[1..], if steps[0].Own? then 1 else 0;
    if i < n {
      ErasedMember(rest, j - n);
      var b :| 0 <= b < |rest| && rest[b] == Own(Erase(rest)[j - n]);
      assert steps[0] == Own(Erase(steps)[i]) && steps[1 + b] == Own(Erase(steps)[j]);
    } else {
      ErasedOrder(rest, i - n, j - n);
      var a, b :| 0 <= a < b < |rest| && rest[a] == Own(Erase(rest)[i - n]) && rest[b] == Own(Erase(rest)[j - n]);
      assert steps[1 + a] == Own(Erase(steps)[i]) && steps[1 + b] == Own(Erase(steps)[j]);
    }
  }

  lemma {:induction false} ErasedMember(steps: seq<Step>, i: nat)
    requires i < |Erase(steps)|
    ensures exists a :: 0 <= a < |steps| && steps[a] == Own(Erase(steps)[i])
  {
    var rest, n := steps[1..], if steps[0].Own? then 1 else 0;
    if i < n {
      assert steps[0] == Own(Erase(steps)[i]);
    } else {
      ErasedMember(rest, i - n);
      var a :| 0 <= a < |rest| && rest[a] == Own(Erase(rest)[i - n]);
      assert steps[1 + a] == Own(Erase(steps)[i]);
    }
  }

  lemma {:induction false} EraseOwnSteps(ms: seq<RemoteMethod>)
    ensures Erase(OwnSteps(ms)) == ms
  {
    if ms != [] { EraseOwnSteps(ms[1..]); }
  }

  lemma {:induction false} AllMethodsHold(chains: seq<Chain>, k: nat, q: nat)
    requires k < |chains| && q < |chains[k].methods|
    ensures |AllMethods(chains[..k])| + q < |AllMethods(chains)|
    ensures AllMethods(chains)[|AllMethods(chains[..k])| + q] == chains[k].methods[q]
    decreases |chains|
  {
    var n := |chains| - 1;
    if k < n {
      AllMethodsHold(chains[..n], k, q);
      assert chains[..n][..k] == chains[..k];
    }
  }

  /** Without its mapping steps a merged chain is start, the merged methods, end. */
  lemma ErasedBuild(env: FlowEnv, raw: nat, query: Query, cache: map<string, Mapping>)
    requires query.routes != [] && Build(env, raw, query, cache).Ok?
    ensures Resolved(env, raw, query.routes).Ok?
    ensures Erase(Build(env, raw, query, cache).value.steps) ==
            env.start + Merge(AllMethods(Resolved(env, raw, query.routes).value), Skip(env)) + env.end
  {
    hide Resolved, FirstRefusal, Created, Merge, AllMethods, Woven, OwnSteps, IndexMap, MergedSerializer, IdSet, StepId,
      Erase, Usable;
    var all := AllMethods(Resolved(env, raw, query.routes).value);
    var middle, now := Merge(all, Skip(env)), Created(cache, query.mappings);
    CreatedIsUsable(middle, query.mappings, env.mappers, cache);
    MergeMembers(all, Skip(env));
    WovenErases(middle, query.mappings, now);
    EraseOwnSteps(env.start);
    EraseOwnSteps(env.end);
    EraseConcat(OwnSteps(env.start) + Woven(middle, query.mappings, now), OwnSteps(env.end));
    EraseConcat(OwnSteps(env.start), Woven(middle, query.mappings, now));
  }

  lemma WovenErases(ms: seq<RemoteMethod>, mappings: seq<Mapping>, cache: map<string, Mapping>)
    requires DistinctIds(ms) && Usable(ms, mappings, cache)
    ensures Erase(Woven(ms, mappings, cache)) == ms
  {
    hide StepId, Woven, Followed, Erase, IndexMap;
    WovenIsFollowed(ms, mappings, cache);
    EraseFollowed(ms, mappings, cache);
  }

  // ---------- When a hit is the rebuild ----------

  /** The paths resolve for both requests, to chains that merge alike. */
  ghost predicate MergesAlike(env: FlowEnv, raw: nat, other: nat, routes: seq<string>)
    requires routes != []
  {
    var a, b := Resolved(env, raw, routes), Resolved(env, other, routes);
    && a.Ok? && b.Ok?
    && a.value[0].routeIndex == b.value[0].routeIndex
    && Merge(AllMethods(a.value), Skip(env)) == Merge(AllMethods(b.value), Skip(env))
    && MergedSerializer(a.value, env.defaultSerializer) == MergedSerializer(b.value, env.defaultSerializer)
  }

  /** Erasing the steps of two equal chains gives equal merged lists. */
  lemma EqualBuildsMergeAlike(env: FlowEnv, raw: nat, other: nat, query: Query, cache: map<string, Mapping>)
    requires query.routes != [] && Build(env, other, query, cache).Ok?
    requires Build(env, raw, query, cache) == Build(env, other, query, cache)
    ensures MergesAlike(env, raw, other, query.routes)
  {
    hide Resolved, FirstRefusal, Created, Merge, AllMethods, Woven, OwnSteps, IndexMap, MergedSerializer, Skip, StepId,
      Erase;
    ErasedBuild(env, raw, query, cache);
    ErasedBuild(env, other, query, cache);
    var a := Merge(AllMethods(Resolved(env, raw, query.routes).value), Skip(env));
    var b := Merge(AllMethods(Resolved(env, other, query.routes).value), Skip(env));
    SameMiddle(env.start, a, b, env.end);
  }

  lemma SameMiddle<T>(front: seq<T>, a: seq<T>, b: seq<T>, back: seq<T>)
    requires front + a + back == front + b + back
    ensures a == b
  {
    assert a == (front + a + back)[|front|..|front| + |a|];
    assert |front + a + back| == |front + b + back|;
    assert b == (front + b + back)[|front|..|front| + |b|];
  }

  lemma MergedAlikeBuildsEqual(env: FlowEnv, raw: nat, other: nat, query: Query, cache: map<string, Mapping>)
    requires query.routes != [] && MergesAlike(env, raw, other, query.routes)
    ensures Build(env, raw, query, cache) == Build(env, other, query, cache)
  {
    hide Resolved, FirstRefusal, Created, Merge, AllMethods, Woven, OwnSteps, IndexMap, MergedSerializer, Skip, StepId;
  }

  /** A request is answered as if nothing were filed exactly when its query misses the cache, or its paths merge to
      what the filed chain was built from. */
  lemma ServedIsRebuiltIff(
    env: FlowEnv, urlQuery: string, flows: map<string, FlowChain>, filedFor: map<string, nat>,
    steps: map<string, Mapping>, raw: nat, r: Result<(FlowChain, seq<string>, seq<Mapping>), FlowError>)
    requires Coherent(env, flows, filedFor, steps) && Served(env, urlQuery, flows, steps, raw, r)
    requires urlQuery != "" && env.decode(urlQuery).Some? && env.decode(urlQuery).value.routes != []
    ensures Served(env, urlQuery, map[], steps, raw, r) <==>
            (urlQuery in flows ==> MergesAlike(env, raw, filedFor[urlQuery], env.decode(urlQuery).value.routes))
  {
    hide Build, MergesAlike, StepId, StripSlashes;
    if urlQuery in flows {
      var query, other := env.decode(urlQuery).value, filedFor[urlQuery];
      assert Fresh(env, urlQuery, flows[urlQuery], other, steps);
      if Build(env, raw, query, steps) == Build(env, other, query, steps) {
        EqualBuildsMergeAlike(env, raw, other, query, steps);
      }
      if MergesAlike(env, raw, other, query.routes) {
        MergedAlikeBuildsEqual(env, raw, other, query, steps);
      }
    }
  }

  /** Both requests send every path to the same place. */
  ghost predicate SameResolution(env: FlowEnv, raw: nat, other: nat, routes: seq<string>) {
    forall path :: path in routes ==> PathFor(env, raw, path) == PathFor(env, other, path)
  }

  /** Without a transform that looks at the request, every hit is the rebuild. */
  lemma {:induction false} SameResolutionResolvesAlike(env: FlowEnv, raw: nat, other: nat, routes: seq<string>)
    requires SameResolution(env, raw, other, routes)
    ensures Resolved(env, raw, routes) == Resolved(env, other, routes)
    ensures routes != [] && Resolved(env, other, routes).Ok? ==> MergesAlike(env, raw, other, routes)
  {
    hide Merge, AllMethods, MergedSerializer, Skip;
    if routes != [] { SameResolutionResolvesAlike(env, raw, other, routes[..|routes| - 1]); }
  }

  ghost predicate OwnAt(steps: seq<Step>, id: string, at: int) {
    0 <= at < |steps| && steps[at].Own? && steps[at].m.id == id
  }

  /** A method that precedes a route in the route's own chain precedes it in the merged chain, whatever else
      is merged in, provided the route's id does not turn up earlier. Only a method that the flow moves to its end, as
      an end method and no start method, does not. */
  lemma FlowKeepsChainOrder(env: FlowEnv, raw: nat, query: Query, cache: map<string, Mapping>, k: nat, p: nat, q: nat)
    requires query.routes != [] && Build(env, raw, query, cache).Ok?
    requires k < |query.routes| && Resolved(env, raw, query.routes).Ok?
    requires var chains := Resolved(env, raw, query.routes).value;
             && p < q < |chains[k].methods|
             && (chains[k].methods[p].id in IdSet(env.end) ==> chains[k].methods[p].id in IdSet(env.start))
             && chains[k].methods[q].id !in Skip(env)
             && chains[k].methods[q].id !in IdSet(AllMethods(chains[..k]) + chains[k].methods[..q])
    ensures var chains := Resolved(env, raw, query.routes).value;
            exists a, b :: a < b && OwnAt(Build(env, raw, query, cache).value.steps, chains[k].methods[p].id, a)
                                 && OwnAt(Build(env, raw, query, cache).value.steps, chains[k].methods[q].id, b)
  {
    hide Resolved, Build, Merge, Erase, AllMethods, Skip;
    var chains, steps := Resolved(env, raw, query.routes).value, Build(env, raw, query, cache).value.steps;
    var all, off := AllMethods(chains), |AllMethods(chains[..k])|;
    ErasedBuild(env, raw, query, cache);
    AllMethodsHold(chains, k, p);
    AllMethodsHold(chains, k, q);
    FirstOccurrence(chains, k, q);
    var i, j := PlacedBefore(env, all, off + p, off + q);
    ErasedOrder(steps, i, j);
    var a, b :| 0 <= a < b < |steps| && steps[a] == Own(Erase(steps)[i]) && steps[b] == Own(Erase(steps)[j]);
    assert OwnAt(steps, all[off + p].id, a) && OwnAt(steps, all[off + q].id, b);
  }

  /** Between start and end methods, a method before the first place of a later one is placed before it. */
  lemma PlacedBefore(env: FlowEnv, all: seq<RemoteMethod>, p: nat, q: nat) returns (i: nat, j: nat)
    requires p < q < |all| && all[q].id !in Skip(env) && forall k :: 0 <= k < q ==> all[k].id != all[q].id
    requires all[p].id in IdSet(env.end) ==> all[p].id in IdSet(env.start)
    ensures var flow := env.start + Merge(all, Skip(env)) + env.end;
            i < j < |flow| && flow[i].id == all[p].id && flow[j].id == all[q].id
  {
    hide Merge;
    var middle, s := Merge(all, Skip(env)), |env.start|;
    if all[p].id in IdSet(env.start) {
      MergeMembers(all, Skip(env));
      assert all[q] in all;
      assert all[q].id in IdSet(middle);
      i :| 0 <= i < s && env.start[i].id == all[p].id;
      var at :| 0 <= at < |middle| && middle[at].id == all[q].id;
      j := s + at;
    } else {
      MergeKeepsOrder(all, Skip(env), p, q);
      var x, y :| x < y && StandsAt(middle, all[p].id, x) && StandsAt(middle, all[q].id, y);
      i, j := s + x, s + y;
    }
  }

  lemma FirstOccurrence(chains: seq<Chain>, k: nat, q: nat)
    requires k < |chains| && q < |chains[k].methods|
    requires chains[k].methods[q].id !in IdSet(AllMethods(chains[..k]) + chains[k].methods[..q])
    ensures |AllMethods(chains[..k])| + q < |AllMethods(chains)|
    ensures forall i :: 0 <= i < |AllMethods(chains[..k])| + q ==> AllMethods(chains)[i].id != chains[k].methods[q].id
  {
    hide AllMethods;
    var all, before, route := AllMethods(chains), AllMethods(chains[..k]), chains[k].methods[q];
    AllMethodsHold(chains, k, q);
    forall i | 0 <= i < |before| + q ensures all[i].id != route.id {
      if i < |before| {
        AllMethodsPrefix(chains, k);
        assert before[i] in before + chains[k].methods[..q];
      } else {
        AllMethodsHold(chains, k, i - |before|);
        assert chains[k].methods[..q][i - |before|] in before + chains[k].methods[..q];
      }
    }
  }

  lemma {:induction false} AllMethodsPrefix(chains: seq<Chain>, k: nat)
    requires k <= |chains|
    ensures AllMethods(chains[..k]) <= AllMethods(chains)
  {
    var n := |chains| - 1;
    if k <= n {
      AllMethodsPrefix(chains[..n], k);
      assert chains[..n][..k] == chains[..k];
    } else {
      assert chains[..k] == chains;
    }
  }

  // ---------- Whether the route index still names the first route ----------

  lemma MergeNothing(skip: set<string>)
    ensures Merge([], skip) == []
  {
  }

  lemma {:induction false} MergeOfFresh(all: seq<RemoteMethod>, skip: set<string>)
    requires DistinctIds(all) && IdSet(all) !! skip
    ensures Merge(all, skip) == all
  {
    hide Merge;
    if all == [] {
      MergeNothing(skip);
    } else {
      var front, last := all[..|all| - 1], all[|all| - 1];
      assert all == front + [last];
      IdSetStep(front, last);
      MergeOfFresh(front, skip);
      MergeStep(front, last, skip);
      assert last.id !in IdSet(front);
    }
  }

  lemma {:induction false} MergeExtends(a: seq<RemoteMethod>, b: seq<RemoteMethod>, skip: set<string>)
    ensures Merge(a, skip) <= Merge(a + b, skip)
  {
    hide Merge, IdSet;
    if b == [] {
      assert a + b == a;
    } else {
      var front, last := b[..|b| - 1], b[|b| - 1];
      assert a + b == a + front + [last];
      MergeExtends(a, front, skip);
      MergeStep(a + front, last, skip);
    }
  }

  lemma {:induction false} MergeOfSkipped(skipped: seq<RemoteMethod>, rest: seq<RemoteMethod>, skip: set<string>)
    requires IdSet(skipped) <= skip
    ensures Merge(skipped + rest, skip) == Merge(rest, skip)
    decreases |rest|, |skipped|
  {
    hide Merge, IdSet;
    MergeNothing(skip);
    if rest != [] {
      var front, last := rest[..|rest| - 1], rest[|rest| - 1];
      assert skipped + rest == skipped + front + [last] && rest == front + [last];
      MergeOfSkipped(skipped, front, skip);
      MergeStep(skipped + front, last, skip);
      MergeStep(front, last, skip);
    } else if skipped != [] {
      var front, last := skipped[..|skipped| - 1], skipped[|skipped| - 1];
      assert skipped + rest == front + [last] && skipped == front + [last] && front + [] == front;
      IdSetStep(front, last);
      MergeOfSkipped(front, [], skip);
      MergeStep(front, last, skip);
    }
  }

  lemma {:induction false} MergeDrops(ms: seq<RemoteMethod>, skipped: seq<RemoteMethod>, skip: set<string>)
    requires IdSet(skipped) <= skip
    ensures Merge(ms + skipped, skip) == Merge(ms, skip)
  {
    hide Merge, IdSet;
    if skipped == [] {
      assert ms + skipped == ms;
    } else {
      var front, last := skipped[..|skipped| - 1], skipped[|skipped| - 1];
      assert skipped == front + [last] && ms + skipped == ms + front + [last];
      IdSetStep(front, last);
      MergeDrops(ms, front, skip);
      MergeStep(ms + front, last, skip);
    }
  }

  /** How many mappings take their input from one of these methods. */
  ghost function Fed(mappings: seq<Mapping>, ids: set<string>): nat {
    if mappings == [] then 0
    else Fed(mappings[..|mappings| - 1], ids) + if mappings[|mappings| - 1].fromId in ids then 1 else 0
  }

  lemma {:induction false} StepsFromCount(id: string, mappings: seq<Mapping>, cache: map<string, Mapping>)
    requires forall m :: m in mappings ==> StepId(m) in cache
    ensures |StepsFrom(id, mappings, cache)| == Fed(mappings, {id})
  {
    hide StepId;
    if mappings != [] { StepsFromCount(id, mappings[..|mappings| - 1], cache); }
  }

  lemma {:induction false} FedSplits(mappings: seq<Mapping>, a: set<string>, b: set<string>)
    requires a !! b
    ensures Fed(mappings, a + b) == Fed(mappings, a) + Fed(mappings, b)
  {
    if mappings != [] { FedSplits(mappings[..|mappings| - 1], a, b); }
  }

  lemma {:induction false} FedByNone(mappings: seq<Mapping>)
    ensures Fed(mappings, {}) == 0
  {
    if mappings != [] { FedByNone(mappings[..|mappings| - 1]); }
  }

  lemma {:induction false} FollowedCount(ms: seq<RemoteMethod>, mappings: seq<Mapping>, cache: map<string, Mapping>)
    requires DistinctIds(ms) && forall m :: m in mappings ==> StepId(m) in cache
    ensures |Followed(ms, mappings, cache)| == |ms| + Fed(mappings, IdSet(ms))
  {
    hide StepId, StepsFrom, Fed;
    if ms == [] {
      FedByNone(mappings);
      assert IdSet(ms) == {};
    } else {
      FollowedCount(ms[1..], mappings, cache);
      StepsFromCount(ms[0].id, mappings, cache);
      assert IdSet(ms) == {ms[0].id} + IdSet(ms[1..]) by {
        assert forall m :: m in ms <==> m == ms[0] || m in ms[1..];
      }
      FedSplits(mappings, {ms[0].id}, IdSet(ms[1..]));
    }
  }

  lemma {:induction false} FollowedConcat(
    a: seq<RemoteMethod>, b: seq<RemoteMethod>, mappings: seq<Mapping>, cache: map<string, Mapping>)
    requires forall m :: m in mappings ==> StepId(m) in cache
    ensures Followed(a + b, mappings, cache) == Followed(a, mappings, cache) + Followed(b, mappings, cache)
  {
    hide StepId, StepsFrom, Followed;
    if a == [] {
      assert a + b == b;
      FollowedNothing(mappings, cache);
    } else {
      FollowedFirst(a, mappings, cache);
      FollowedFirst(a + b, mappings, cache);
      assert (a + b)[1..] == a[1..] + b;
      FollowedConcat(a[1..], b, mappings, cache);
    }
  }

  lemma FollowedNothing(mappings: seq<Mapping>, cache: map<string, Mapping>)
    requires forall m :: m in mappings ==> StepId(m) in cache
    ensures Followed([], mappings, cache) == []
  {
  }

  lemma FollowedFirst(ms: seq<RemoteMethod>, mappings: seq<Mapping>, cache: map<string, Mapping>)
    requires ms != [] && forall m :: m in mappings ==> StepId(m) in cache
    ensures Followed(ms, mappings, cache) ==
            ([Own(ms[0])] + StepsFrom(ms[0].id, mappings, cache)) + Followed(ms[1..], mappings, cache)
  {
    hide StepsFrom, StepId;
  }

  ghost predicate NoRoute(ms: seq<RemoteMethod>) {
    forall m :: m in ms ==> !m.kind.Route?
  }

  lemma {:induction false} OwnStepsAre(ms: seq<RemoteMethod>)
    ensures forall i :: 0 <= i < |ms| ==> OwnSteps(ms)[i] == Own(ms[i])
  {
    if ms != [] { OwnStepsAre(ms[1..]); }
  }

  lemma {:induction false} OwnStepIsListed(steps: seq<Step>, at: nat)
    requires at < |steps| && steps[at].Own?
    ensures steps[at].m in Erase(steps)
  {
    ErasedIndex(steps, at);
  }

  /** Between wrappers that hold no route, a route stands in the woven part or nowhere. */
  lemma RouteStandsInside(start: seq<RemoteMethod>, w: seq<Step>, end: seq<RemoteMethod>, route: RemoteMethod, n: nat)
    requires NoRoute(start) && NoRoute(end) && route.kind.Route?
    ensures var steps := OwnSteps(start) + w + OwnSteps(end);
            (|start| + n < |steps| && steps[|start| + n] == Own(route)) <==> (n < |w| && w[n] == Own(route))
  {
    hide OwnSteps;
    OwnStepsAre(start);
    OwnStepsAre(end);
    var steps := OwnSteps(start) + w + OwnSteps(end);
    if |w| <= n && |start| + n < |steps| {
      assert steps[|start| + n] == Own(end[n - |w|]);
      assert end[n - |w|] in end;
    }
  }

  /** A listed method stands after the methods before it and the steps they feed. */
  lemma OwnPlace(
    kept: seq<RemoteMethod>, route: RemoteMethod, rest: seq<RemoteMethod>, mappings: seq<Mapping>,
    cache: map<string, Mapping>, n: nat)
    requires DistinctIds(kept + [route] + rest) && forall m :: m in mappings ==> StepId(m) in cache
    ensures var w := Followed(kept + [route] + rest, mappings, cache);
            (n < |w| && w[n] == Own(route)) <==> n == |kept| + Fed(mappings, IdSet(kept))
  {
    hide StepId, StepsFrom, Fed, Followed, Erase, IdSet;
    var all := kept + [route] + rest;
    var w, at := Followed(all, mappings, cache), |Followed(kept, mappings, cache)|;
    assert all == kept + ([route] + rest);
    FollowedConcat(kept, [route] + rest, mappings, cache);
    FollowedHead(route, rest, mappings, cache);
    assert forall i, j :: 0 <= i < j < |kept| ==> kept[i].id == all[i].id != all[j].id == kept[j].id;
    FollowedCount(kept, mappings, cache);
    EraseFollowed(all, mappings, cache);
    if n < |w| && w[n] == Own(route) { OwnIsUnique(w, n, at); }
  }

  lemma FollowedHead(route: RemoteMethod, rest: seq<RemoteMethod>, mappings: seq<Mapping>, cache: map<string, Mapping>)
    requires forall m :: m in mappings ==> StepId(m) in cache
    ensures var f := Followed([route] + rest, mappings, cache);
            0 < |f| && f[0] == Own(route)
  {
  }

  lemma {:induction false} FedIsZeroIff(mappings: seq<Mapping>, ids: set<string>)
    ensures Fed(mappings, ids) == 0 <==> forall m :: m in mappings ==> m.fromId !in ids
  {
    if mappings != [] {
      var front, last := mappings[..|mappings| - 1], mappings[|mappings| - 1];
      FedIsZeroIff(front, ids);
      assert mappings == front + [last];
    }
  }

  /** Position i of the list keeps its place exactly when no earlier method feeds a mapping. */
  lemma KeepsItsPlaceIff(ms: seq<RemoteMethod>, mappings: seq<Mapping>, cache: map<string, Mapping>, i: nat)
    requires DistinctIds(ms) && i < |ms|
    requires forall m :: m in mappings ==> StepId(m) in cache
    ensures var w := Followed(ms, mappings, cache);
            (i < |w| && w[i] == Own(ms[i])) <==> forall m :: m in mappings ==> m.fromId !in IdSet(ms[..i])
  {
    hide StepId, Followed, Fed, IdSet;
    assert ms == ms[..i] + [ms[i]] + ms[i + 1..];
    OwnPlace(ms[..i], ms[i], ms[i + 1..], mappings, cache, i);
    FedIsZeroIff(mappings, IdSet(ms[..i]));
  }

  lemma RouteInMergedIff(
    env: FlowEnv, middle: seq<RemoteMethod>, mappings: seq<Mapping>, cache: map<string, Mapping>,
    pre: seq<RemoteMethod>, route: RemoteMethod)
    requires forall m :: m in mappings ==> StepId(m) in cache
    requires DistinctIds(middle) && IdSet(middle) !! Skip(env) && Merge(pre + [route], Skip(env)) <= middle
    requires route.kind.Route? && NoRoute(pre)
    ensures var w := Followed(middle, mappings, cache);
            (|pre| < |w| && w[|pre|] == Own(route)) <==> RouteIndexHolds(env, mappings, pre, route)
  {
    hide Merge, Followed, StepId, IdSet, DistinctIds, Fed, NoRoute, Skip;
    var kept := Merge(pre, Skip(env));
    MergeStep(pre, route, Skip(env));
    MergeMembers(pre, Skip(env));
    if route.id in Skip(env) || route.id in IdSet(pre) {
      RouteIsMergedAway(middle, kept, pre, route, Skip(env));
      NeverFollowed(middle, mappings, cache, route);
    } else {
      LeadsMerged(kept + [route], middle);
      OwnPlace(kept, route, middle[|kept| + 1..], mappings, cache, |pre|);
    }
  }

  lemma LeadsMerged<T>(lead: seq<T>, all: seq<T>)
    requires lead <= all
    ensures all == lead + all[|lead|..]
  {
  }

  lemma NeverFollowed(ms: seq<RemoteMethod>, mappings: seq<Mapping>, cache: map<string, Mapping>, m: RemoteMethod)
    requires forall x :: x in mappings ==> StepId(x) in cache
    requires m !in ms
    ensures Own(m) !in Followed(ms, mappings, cache)
  {
    hide Followed, StepId, Erase;
    var w := Followed(ms, mappings, cache);
    EraseFollowed(ms, mappings, cache);
    forall i | 0 <= i < |w| && w[i].Own? ensures w[i].m != m { OwnStepIsListed(w, i); }
  }

  /** The merged chain keeps the first chain's route index. It names the first route exactly when no wrapper and no
      earlier method of the chain has the route's id, and the mappings fed by the methods merged in front of it are
      as many as the methods in front of it that the merge leaves out. */
  lemma RouteIndexNamesFirstRouteIff(
    env: FlowEnv, raw: nat, query: Query, cache: map<string, Mapping>, pre: seq<RemoteMethod>, route: RemoteMethod,
    post: seq<RemoteMethod>)
    requires query.routes != [] && Build(env, raw, query, cache).Ok? && Resolved(env, raw, query.routes).Ok?
    requires var first := Resolved(env, raw, query.routes).value[0];
             first.routeIndex == |env.start| + |pre| && first.methods == env.start + (pre + [route]) + post
    requires route.kind.Route? && NoRoute(env.start) && NoRoute(pre) && NoRoute(env.end)
    ensures var c := Build(env, raw, query, cache).value;
            (c.routeIndex < |c.steps| && c.steps[c.routeIndex] == Own(route)) <==>
              RouteIndexHolds(env, query.mappings, pre, route)
  {
    hide Resolved, FirstRefusal, Created, Merge, AllMethods, Woven, Followed, OwnSteps, IndexMap, MergedSerializer,
      StepId, IdSet, DistinctIds, Usable, Fed, NoRoute, Skip, Erase;
    var chains := Resolved(env, raw, query.routes).value;
    var all := AllMethods(chains);
    var middle, now := Merge(all, Skip(env)), Created(cache, query.mappings);
    CreatedIsUsable(middle, query.mappings, env.mappers, cache);
    MergeMembers(all, Skip(env));
    FirstChainLeads(env, chains, pre + [route], post);
    WovenIsFollowed(middle, query.mappings, now);
    UsableCached(middle, query.mappings, now);
    RouteStandsInside(env.start, Followed(middle, query.mappings, now), env.end, route, |pre|);
    RouteInMergedIff(env, middle, query.mappings, now, pre, route);
  }

  ghost predicate RouteIndexHolds(env: FlowEnv, mappings: seq<Mapping>, pre: seq<RemoteMethod>, route: RemoteMethod) {
    var kept := Merge(pre, Skip(env));
    route.id !in Skip(env) && route.id !in IdSet(pre) && Fed(mappings, IdSet(kept)) == |pre| - |kept|
  }

  /** A route whose id is a wrapper's or an earlier middleFn's is not in the merged list. */
  lemma RouteIsMergedAway(
    middle: seq<RemoteMethod>, kept: seq<RemoteMethod>, pre: seq<RemoteMethod>, route: RemoteMethod, skip: set<string>)
    requires DistinctIds(middle) && kept <= middle && IdSet(middle) !! skip && IdSet(kept) == IdSet(pre) - skip
    requires route.kind.Route? && NoRoute(pre) && forall m :: m in kept ==> m in pre
    requires route.id in skip || route.id in IdSet(pre)
    ensures route !in middle
  {
    if route.id in skip {
      forall m | m in middle ensures m.id != route.id { assert m.id in IdSet(middle); }
    } else {
      assert route.id in IdSet(kept);
      var m :| m in kept && m.id == route.id;
      var k :| 0 <= k < |kept| && kept[k] == m;
      assert middle[k] == m && m in pre;
      forall i | 0 <= i < |middle| ensures middle[i] != route {
        if i != k { assert middle[i].id != middle[k].id; }
      }
    }
  }

  lemma UsableCached(ms: seq<RemoteMethod>, mappings: seq<Mapping>, cache: map<string, Mapping>)
    requires Usable(ms, mappings, cache)
    ensures forall m :: m in mappings ==> StepId(m) in cache
  {
    hide StepId, IndexMap;
  }

  lemma FirstChainLeads(env: FlowEnv, chains: seq<Chain>, lead: seq<RemoteMethod>, post: seq<RemoteMethod>)
    requires chains != [] && chains[0].methods == env.start + lead + post
    ensures Merge(lead, Skip(env)) <= Merge(AllMethods(chains), Skip(env))
  {
    hide Merge, Skip, AllMethods;
    var all := AllMethods(chains);
    AllMethodsPrefix(chains, 1);
    AllMethodsStep([], chains[0]);
    assert chains[..1] == [] + [chains[0]];
    NothingMerged(env, 0);
    assert chains[0].methods <= all;
    var tail := all[|chains[0].methods|..];
    assert all == chains[0].methods + tail;
    Regrouped(env.start, lead, post, tail);
    LeadingPart(env, lead, post + tail);
  }

  lemma Regrouped<T>(a: seq<T>, b: seq<T>, c: seq<T>, d: seq<T>)
    ensures a + b + c + d == a + (b + (c + d))
  {
  }

  lemma LeadingPart(env: FlowEnv, lead: seq<RemoteMethod>, rest: seq<RemoteMethod>)
    ensures Merge(lead, Skip(env)) <= Merge(env.start + (lead + rest), Skip(env))
  {
    hide Merge, IdSet;
    MergeOfSkipped(env.start, lead + rest, Skip(env));
    MergeExtends(lead, rest, Skip(env));
  }

  /** A flow of one route. */
  lemma OneRouteBuild(
    env: FlowEnv, raw: nat, path: string, mappings: seq<Mapping>, cache: map<string, Mapping>, chain: Chain)
    requires PathFor(env, raw, path) in env.router && env.router[PathFor(env, raw, path)] == chain
    requires FirstRefusal(Merge(chain.methods, Skip(env)), mappings, env.mappers).None?
    ensures Resolved(env, raw, [path]) == Ok([chain]) && Build(env, raw, Query([path], mappings), cache).Ok?
    ensures Build(env, raw, Query([path], mappings), cache).value.routeIndex == chain.routeIndex
  {
    hide Resolved, FirstRefusal, Created, Merge, AllMethods, Woven, MergedSerializer, Skip;
    OnePath(env, raw, path);
    AllMethodsStep([], chain);
    assert [] + [chain] == [chain];
    NothingMerged(env, raw);
    assert AllMethods([chain]) == chain.methods;
  }

  /** A start middleFn that also stands in the tree, as the router lets it, pushes the index past the route: the
      merged chain is one method shorter than the index says, with no mapping at all. */
  lemma RepeatedStartMiddleFnShiftsTheRoute(
    env: FlowEnv, raw: nat, path: string, m: RemoteMethod, route: RemoteMethod, serializer: Serializer)
    requires env.start == [m] && env.end == [] && !m.kind.Route? && route.kind.Route? && m.id != route.id
    requires PathFor(env, raw, path) in env.router
    requires env.router[PathFor(env, raw, path)] == Chain(2, [m, m, route], serializer)
    ensures var built := Build(env, raw, Query([path], []), map[]);
            built.Ok? && !(built.value.routeIndex < |built.value.steps|
              && built.value.steps[built.value.routeIndex] == Own(route))
  {
    hide Resolved, FirstRefusal, Created, Merge, AllMethods, Woven, MergedSerializer, Build, Fed;
    var chain := env.router[PathFor(env, raw, path)];
    NoMappings(Merge(chain.methods, Skip(env)), env.mappers, map[]);
    OneRouteBuild(env, raw, path, [], map[], chain);
    assert chain.methods == env.start + ([m] + [route]) + [];
    RouteIndexNamesFirstRouteIff(env, raw, Query([path], []), map[], [m], route, []);
    MergeNothing(Skip(env));
    MergeStep([], m, Skip(env));
    assert [] + [m] == [m] && m in env.start;
    NothingFed(IdSet([]));
  }

  lemma NothingFed(ids: set<string>)
    ensures Fed([], ids) == 0
  {
  }

  /** A mapping fed by a middleFn in front of the route pushes the route past the index. */
  lemma FedMiddleFnShiftsTheRoute(
    env: FlowEnv, raw: nat, path: string, m: RemoteMethod, route: RemoteMethod, serializer: Serializer,
    mapping: Mapping)
    requires env.start == [] && env.end == [] && !m.kind.Route? && route.kind.Route? && m.id != route.id
    requires PathFor(env, raw, path) in env.router
    requires env.router[PathFor(env, raw, path)] == Chain(1, [m, route], serializer)
    requires mapping.fromId == m.id && mapping.toId == route.id && mapping.paramIndex < route.def.paramsCount
    requires mapping.bodyHash in env.mappers
    ensures var built := Build(env, raw, Query([path], [mapping]), map[]);
            built.Ok? && !(built.value.routeIndex < |built.value.steps|
              && built.value.steps[built.value.routeIndex] == Own(route))
  {
    hide Resolved, FirstRefusal, Created, Merge, AllMethods, Woven, MergedSerializer, Build, IndexMap;
    var chain := env.router[PathFor(env, raw, path)];
    assert IdSet([]) == {};
    assert Skip(env) == {};
    MergeOfFresh([m, route], Skip(env));
    MergeOfFresh([m], Skip(env));
    OneMappingIsTaken(m, route, mapping, env.mappers);
    OneRouteBuild(env, raw, path, [mapping], map[], chain);
    assert chain.methods == env.start + ([m] + [route]) + [];
    RouteIndexNamesFirstRouteIff(env, raw, Query([path], [mapping]), map[], [m], route, []);
    assert m in [m];
    NothingFed(IdSet([m]));
  }

  lemma OneMappingIsTaken(m: RemoteMethod, route: RemoteMethod, mapping: Mapping, mappers: set<string>)
    requires !m.kind.Route? && route.kind.Route? && m.id != route.id
    requires mapping.fromId == m.id && mapping.toId == route.id && mapping.paramIndex < route.def.paramsCount
    requires mapping.bodyHash in mappers
    ensures FirstRefusal([m, route], [mapping], mappers).None?
  {
    hide FirstRefusal, IndexMap, Woven, Created;
    IndexMapFinds([m, route]);
    assert [m, route][0] == m && [m, route][1] == route;
    NoMappings([m, route], mappers, map[]);
    FirstRefusalStep([m, route], [], mapping, mappers);
    assert [] + [mapping] == [mapping];
  }

  /** The cache key leaves out the request: when the transform sends one query to two places, one of the two
      requests is served the other's chain. */
  lemma CacheKeyForgetsTheRequest(env: FlowEnv, url: string, raw: nat, other: nat, a: Chain, b: Chain)
    requires url != "" && env.decode(url) == Some(Query(["r"], []))
    requires PathFor(env, raw, "r") in env.router && env.router[PathFor(env, raw, "r")] == a
    requires PathFor(env, other, "r") in env.router && env.router[PathFor(env, other, "r")] == b
    requires a.routeIndex != b.routeIndex
    ensures exists chain :: && Build(env, raw, Query(["r"], []), map[]) == Ok(chain)
                            && Coherent(env, map[url := chain], map[url := raw], map[])
                            && Served(env, url, map[url := chain], map[], other, Ok((chain, ["r"], [])))
                            && Build(env, other, Query(["r"], []), map[]) != Ok(chain)
  {
    hide Woven, Merge, Created, FirstRefusal, Resolved;
    var q := Query(["r"], []);
    OnePath(env, raw, "r");
    OnePath(env, other, "r");
    NoMappings(Merge(AllMethods([a]), Skip(env)), env.mappers, map[]);
    NoMappings(Merge(AllMethods([b]), Skip(env)), env.mappers, map[]);
    var chain := Build(env, raw, q, map[]).value;
    assert StripSlashes(["r"]) == ["r"] by {
      assert ["r"][1..] == [] && "/"[0] != "r"[0];
    }
    assert Build(env, raw, q, map[]) == Ok(chain);
    assert Fresh(env, url, chain, raw, map[]);
  }

  lemma OnePath(env: FlowEnv, raw: nat, path: string)
    requires PathFor(env, raw, path) in env.router
    ensures Resolved(env, raw, [path]) == Ok([env.router[PathFor(env, raw, path)]])
  {
    ResolvedStep(env, raw, [], path);
    var none: seq<Chain>, chain := [], env.router[PathFor(env, raw, path)];
    assert Resolved(env, raw, []) == Ok(none);
    assert [] + [path] == [path] && none + [chain] == [chain];
  }
}
