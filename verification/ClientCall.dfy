/** A whole call on the client: from the sub-requests submitted, over the response on the wire, to the five slots. */
module ClientCall {
  import opened Basics
  import opened ClientResult

  /** A response as the client reads it. */
  datatype Wire = Wire(body: ResponseBody, headers: string -> Option<Received>, skip: Option<string>)

  ghost predicate IsWire(w: Wire) {
    UniqueNames(w.body.entries) && UniqueNames(w.body.thrown)
  }

  // ---------- What the wire says of each id ----------

  /** What the response says under an id: a header's value if there is one, else the body's. */
  function SaidOf(w: Wire, id: string): Received {
    match w.headers(id)
    case Some(value) => value
    case None => match Find(w.body.entries, id) case Some(value) => value case None => Undefined
  }

  lemma SaidIsResponse(w: Wire, id: string)
    ensures SaidOf(w, id) == ResponseOf(w.body, w.headers, id)
  {
  }

  /** The error declared under an id: a validation error thrown for it, or its own response when that is an error
      and nothing was thrown for it. */
  function DeclaredOnWire(w: Wire, id: string): Option<RpcError> {
    var thrown, resp := Find(w.body.thrown, id), SaidOf(w, id);
    if thrown.Some? then if thrown.value.errorType == "validation-error" then thrown else None
    else if Some(id) != w.skip && resp.Failed? then Some(resp.error)
    else None
  }

  /** The value an id was answered with: its own response, unless that is an error or one was thrown for it. */
  function ValueOnWire(w: Wire, id: string): Received {
    var resp := SaidOf(w, id);
    if Find(w.body.thrown, id).Some? || Some(id) == w.skip || resp.Failed? then Undefined else resp
  }

  /** Something went wrong that no participant declared: an error thrown that is not a participant's validation
      error, or an error in the body under an id nobody asked for. */
  ghost predicate WrongOnWire(ids: seq<string>, body: ResponseBody) {
    || (exists t :: t in body.thrown && (t.1.errorType != "validation-error" || t.0 !in ids))
    || (exists e :: e in body.entries && e.0 !in ids && e.1.Failed?)
  }

  // ---------- The participants, as the result is built from them ----------

  function AnswerOf(all: seq<Sub>, id: string): Sub {
    if all == [] then Sub(id, Undefined) else if all[0].id == id then all[0] else AnswerOf(all[1..], id)
  }

  /** The participants that are not routes. */
  function Others(all: seq<Sub>, routeIds: seq<string>): seq<Sub> {
    if all == [] then []
    else
      var front, last := all[..|all| - 1], all[|all| - 1];
      Others(front, routeIds) + if last.id in routeIds then [] else [last]
  }

  ghost predicate DistinctSubs(all: seq<Sub>) {
    forall i, j :: 0 <= i < j < |all| ==> all[i].id != all[j].id
  }

  lemma {:induction false} AnswerOfIs(all: seq<Sub>, id: string, i: nat)
    requires DistinctSubs(all) && i < |all| && all[i].id == id
    ensures AnswerOf(all, id) == all[i]
  {
    if i > 0 {
      assert all[0].id != all[i].id;
      AnswerOfIs(all[1..], id, i - 1);
    }
  }

  lemma {:induction false} OthersAre(all: seq<Sub>, routeIds: seq<string>)
    ensures forall m :: m in Others(all, routeIds) <==> m in all && m.id !in routeIds
    ensures DistinctSubs(all) ==> DistinctSubs(Others(all, routeIds))
  {
    if all != [] {
      var front, last := all[..|all| - 1], all[|all| - 1];
      OthersAre(front, routeIds);
      assert all == front + [last];
      var before := Others(front, routeIds);
      if DistinctSubs(all) {
        assert DistinctSubs(front);
        forall i | 0 <= i < |before| ensures before[i].id != last.id {
          assert before[i] in front;
          var j :| 0 <= j < |front| && front[j] == before[i];
          assert all[j].id != all[|front|].id;
        }
      }
    }
  }

  // ---------- Names ----------

  lemma {:induction false} RestoredMembers(record: Entries<Sub>, recordIds: set<string>, all: seq<Sub>)
    ensures forall e :: e in WithRestored(record, recordIds, all) ==> e in record || e.1 in all
    ensures UniqueNames(record) ==> UniqueNames(WithRestored(record, recordIds, all))
  {
    hide Set, UniqueNames;
    if all != [] {
      var front, last := all[..|all| - 1], all[|all| - 1];
      RestoredMembers(record, recordIds, front);
      SetMembers(WithRestored(record, recordIds, front), last.id, last);
      assert all == front + [last];
    }
  }

  /** The middleFns under their final names, as merging leaves them. */
  function Merged(record: Option<Entries<Sub>>, all: seq<Sub>): Entries<Sub> {
    if record.None? then Plain(all) else WithRestored(record.value, Elements(MiddleIds(record.value)), all)
  }

  lemma PlainIs(all: seq<Sub>, name: string)
    requires DistinctSubs(all)
    ensures UniqueNames(Plain(all))
    ensures Find(Plain(all), name) == if name in SubIds(all) then Some(AnswerOf(all, name)) else None
  {
    hide Find, AnswerOf;
    if name in SubIds(all) {
      var i :| 0 <= i < |all| && SubIds(all)[i] == name;
      FindUnique(Plain(all), i);
      AnswerOfIs(all, name, i);
    } else {
      FindIsThere(Plain(all), name);
      forall i | 0 <= i < |all| ensures Plain(all)[i].0 != name {
        assert SubIds(all)[i] in SubIds(all);
      }
    }
  }

  lemma AnswerAmongOthers(all: seq<Sub>, routeIds: seq<string>, name: string)
    requires DistinctSubs(all)
    ensures name in SubIds(Others(all, routeIds)) <==> name in SubIds(all) && name !in routeIds
    ensures name in SubIds(Others(all, routeIds)) ==>
              AnswerOf(Others(all, routeIds), name) == AnswerOf(all, name) && AnswerOf(all, name).id == name
    ensures forall m :: m in Others(all, routeIds) && m.id == name ==> m == AnswerOf(all, name)
  {
    hide AnswerOf, Others;
    var others := Others(all, routeIds);
    OthersAre(all, routeIds);
    if name in SubIds(others) {
      var i :| 0 <= i < |others| && SubIds(others)[i] == name;
      AnswerOfIs(others, name, i);
      assert others[i] in all;
      var j :| 0 <= j < |all| && all[j] == others[i];
      AnswerOfIs(all, name, j);
      assert SubIds(all)[j] == name;
    }
    if name in SubIds(all) && name !in routeIds {
      var j :| 0 <= j < |all| && SubIds(all)[j] == name;
      assert all[j] in others;
      var i :| 0 <= i < |others| && others[i] == all[j];
      assert SubIds(others)[i] == name;
    }
    forall m | m in others && m.id == name ensures m == AnswerOf(all, name) {
      var j :| 0 <= j < |all| && all[j] == m;
      AnswerOfIs(all, name, j);
    }
  }

  lemma IsAmong(all: seq<Sub>, name: string)
    ensures name in SubIds(all) <==> exists m :: m in all && m.id == name
  {
    if m :| m in all && m.id == name {
      var i :| 0 <= i < |all| && all[i] == m;
      assert SubIds(all)[i] == name;
    }
  }

  // ---------- The five slots ----------

  /** A call when its response has been read: the participants filed, and what the caller holds of routes and record. */
  datatype Exchange = Exchange(all: seq<Sub>, routes: Routes, record: Option<Entries<Sub>>)

  ghost predicate IsExchange(c: Exchange) {
    && DistinctSubs(c.all)
    && (forall id :: id in RouteIds(c.routes) ==> id in SubIds(c.all))
    && (c.record.Some? ==> UniqueNames(c.record.value) && forall e :: e in c.record.value ==> e.1.id in SubIds(c.all))
  }

  function OtherIds(c: Exchange): seq<string> {
    SubIds(Others(c.all, RouteIds(c.routes)))
  }

  function MiddleFnsOf(c: Exchange): Entries<Sub> {
    Merged(c.record, Others(c.all, RouteIds(c.routes)))
  }

  /** The record has a middleFn with this id, whatever its name there. */
  ghost predicate Recorded(record: Option<Entries<Sub>>, id: string) {
    record.Some? && exists e :: e in record.value && e.1.id == id
  }

  /** What a name of the result stands for: a participant outside the record with that id, else the record's own. */
  ghost function NamedSub(c: Exchange, name: string): Option<Sub> {
    if name in OtherIds(c) && !Recorded(c.record, name) then Some(AnswerOf(c.all, name))
    else if c.record.Some? then Find(c.record.value, name)
    else None
  }

  lemma RecordIds(record: Entries<Sub>, id: string)
    ensures id in Elements(MiddleIds(record)) <==> Recorded(Some(record), id)
  {
    if e :| e in record && e.1.id == id {
      var i :| 0 <= i < |record| && record[i] == e;
      assert MiddleIds(record)[i] == id;
    }
  }

  /** Under each of its names the merged record holds what the name stands for. */
  lemma MergedFinds(c: Exchange, name: string)
    requires IsExchange(c)
    ensures UniqueNames(MiddleFnsOf(c)) && Find(MiddleFnsOf(c), name) == NamedSub(c, name)
    ensures NamedSub(c, name).Some? ==> NamedSub(c, name).value.id in SubIds(c.all)
  {
    hide AnswerOf, Find, Others, WithRestored, LastRestored, UniqueNames, Recorded;
    var others := Others(c.all, RouteIds(c.routes));
    OthersAre(c.all, RouteIds(c.routes));
    AnswerAmongOthers(c.all, RouteIds(c.routes), name);
    if c.record.None? {
      NothingRecorded(name);
      PlainIs(others, name);
    } else {
      var record := c.record.value;
      var recordIds := Elements(MiddleIds(record));
      RecordIds(record, name);
      RestoredMembers(record, recordIds, others);
      WithRestoredFinds(record, recordIds, others, name);
      LastRestoredIff(recordIds, others, name);
      FindIsThere(record, name);
      IsAmong(others, name);
    }
  }

  lemma NothingRecorded(id: string)
    ensures !Recorded(None, id)
  {
  }

  /** No middleFn outside the record has a name of the record as its id. */
  ghost predicate NamesAreUnused(c: Exchange) {
    c.record.Some? ==> forall e :: e in c.record.value && e.0 in OtherIds(c) ==> Recorded(c.record, e.0)
  }

  /** The result was built from this call's participants and these errors. */
  ghost predicate BuiltFrom(c: Exchange, errors: Entries<RpcError>, thrownIds: set<string>, r: CallResult) {
    && RouteParts(c.routes, errors, thrownIds, r.routeResult, r.routeError)
    && r.fatal == Fatal(errors, thrownIds, MiddleIds(MiddleFnsOf(c)), RouteIds(c.routes))
    && r.middleFnResults == NamedValues(MiddleFnsOf(c))
    && r.middleFnErrors == NamedErrors(errors, thrownIds, MiddleFnsOf(c))
  }

  /** The errors of the call are those of the wire. */
  ghost predicate FromWire(c: Exchange, w: Wire, errors: Entries<RpcError>, thrownIds: set<string>) {
    && IsWire(w)
    && errors == CollectedErrors(SubIds(c.all), w.body, w.headers, w.skip)
    && thrownIds == UndeclaredOn(SubIds(c.all), w.body)
  }

  lemma DeclaredIsOnWire(c: Exchange, w: Wire, errors: Entries<RpcError>, thrownIds: set<string>, id: string)
    requires FromWire(c, w, errors, thrownIds) && id in SubIds(c.all)
    ensures Declared(errors, thrownIds, id) == DeclaredOnWire(w, id)
  {
    hide ResponseOf, SaidOf, CollectedErrors, UndeclaredIds, UnaskedIds, UniqueNames, Find;
    DeclaredFromTheWire(SubIds(c.all), w.body, w.headers, w.skip, id);
    SaidIsResponse(w, id);
  }

  /** A slot for each of several routes, unless all of them are empty. */
  ghost predicate ListsAll<T(!new)>(slot: Slot<T>, items: seq<T>, empty: T) {
    if forall x :: x in items ==> x == empty then slot.Nothing? else slot == Many(items)
  }

  function DeclaredOnes(w: Wire, subs: seq<Sub>): (r: seq<Option<RpcError>>)
    ensures |r| == |subs|
  {
    seq(|subs|, i requires 0 <= i < |subs| => DeclaredOnWire(w, subs[i].id))
  }

  /** The route slots hold what each route's own sub-request was answered, and the error declared under its id. */
  ghost predicate RoutesTold(routes: Routes, w: Wire, r: CallResult) {
    match routes
    case NoRoute => r.routeResult.Nothing? && r.routeError.Nothing?
    case Single(sub) => r.routeResult == One(sub.value) && r.routeError == One(DeclaredOnWire(w, sub.id))
    case Workflow(subs) =>
      ListsAll(r.routeResult, ValuesOf(subs), Undefined) && ListsAll(r.routeError, DeclaredOnes(w, subs), None)
  }

  lemma RoutesAreTold(c: Exchange, w: Wire, errors: Entries<RpcError>, thrownIds: set<string>, r: CallResult)
    requires IsExchange(c) && FromWire(c, w, errors, thrownIds) && BuiltFrom(c, errors, thrownIds, r)
    ensures RoutesTold(c.routes, w, r)
  {
    hide Find, FromWire, Declared, DeclaredOnWire, Fatal, NamedErrors, NamedValues, MiddleFnsOf, DistinctSubs;
    forall id | id in RouteIds(c.routes) ensures Declared(errors, thrownIds, id) == DeclaredOnWire(w, id) {
      DeclaredIsOnWire(c, w, errors, thrownIds, id);
    }
    if c.routes.Workflow? {
      var subs := c.routes.subs;
      forall i | 0 <= i < |subs| ensures Declared(errors, thrownIds, subs[i].id) == DeclaredOnWire(w, subs[i].id) {
        assert SubIds(subs)[i] in SubIds(subs);
      }
      assert DeclaredOf(errors, thrownIds, subs) == DeclaredOnes(w, subs);
    }
  }

  /** Under a name the records hold what its sub-request was answered and the error declared under its id. */
  ghost predicate NameTold(named: Option<Sub>, w: Wire, r: CallResult, name: string) {
    && Find(r.middleFnErrors, name) == (if named.Some? then DeclaredOnWire(w, named.value.id) else None)
    && Find(r.middleFnResults, name) ==
         (if named.Some? && !named.value.value.Undefined? then Some(named.value.value) else None)
  }

  lemma NameIsTold(
    c: Exchange, w: Wire, errors: Entries<RpcError>, thrownIds: set<string>, r: CallResult, name: string)
    requires IsExchange(c) && FromWire(c, w, errors, thrownIds) && BuiltFrom(c, errors, thrownIds, r)
    ensures NameTold(NamedSub(c, name), w, r, name)
  {
    hide AnswerOf, Find, Others, Merged, UniqueNames, NamedSub, NamedErrors, NamedValues, Declared, DeclaredOnWire,
      FromWire, RouteParts, Fatal;
    MergedFinds(c, name);
    NamedErrorsFind(errors, thrownIds, MiddleFnsOf(c), name);
    NamedValuesFind(MiddleFnsOf(c), name);
    var named := NamedSub(c, name);
    if named.Some? { DeclaredIsOnWire(c, w, errors, thrownIds, named.value.id); }
  }

  // ---------- The fatal slot ----------

  lemma MergedHoldsOnlyParticipants(c: Exchange, id: string)
    requires IsExchange(c) && id in MiddleIds(MiddleFnsOf(c))
    ensures id in SubIds(c.all)
  {
    hide AnswerOf, Others, WithRestored, UniqueNames;
    var merged, others := MiddleFnsOf(c), Others(c.all, RouteIds(c.routes));
    OthersAre(c.all, RouteIds(c.routes));
    var i :| 0 <= i < |merged| && MiddleIds(merged)[i] == id;
    assert merged[i] in merged;
    IsAmong(c.all, id);
    if c.record.Some? {
      RestoredMembers(c.record.value, Elements(MiddleIds(c.record.value)), others);
    } else {
      assert Plain(others)[i].1 in others;
    }
  }

  lemma MergedHoldsAllOthers(c: Exchange, id: string)
    requires IsExchange(c) && NamesAreUnused(c) && id in OtherIds(c)
    ensures id in MiddleIds(MiddleFnsOf(c))
  {
    hide AnswerOf, Others, Merged, UniqueNames, Find;
    var merged := MiddleFnsOf(c);
    var name := id;
    if Recorded(c.record, id) {
      var e :| e in c.record.value && e.1.id == id;
      var i :| 0 <= i < |c.record.value| && c.record.value[i] == e;
      FindUnique(c.record.value, i);
      name := e.0;
    }
    AnswerAmongOthers(c.all, RouteIds(c.routes), id);
    MergedFinds(c, name);
    var named := NamedSub(c, name);
    assert named.Some? && named.value.id == id;
    FindIsThere(merged, name);
    var j :| 0 <= j < |merged| && merged[j] == (name, named.value);
    assert MiddleIds(merged)[j] == id;
  }

  /** With the names unused by others, every participant is in one of the slots. */
  lemma EveryoneIsClaimed(c: Exchange)
    requires IsExchange(c) && NamesAreUnused(c)
    ensures Elements(MiddleIds(MiddleFnsOf(c))) + Elements(RouteIds(c.routes)) == Elements(SubIds(c.all))
  {
    hide Others, Merged, NamesAreUnused, MiddleFnsOf, UniqueNames;
    forall id | id in SubIds(c.all) ensures id in MiddleIds(MiddleFnsOf(c)) || id in RouteIds(c.routes) {
      AnswerAmongOthers(c.all, RouteIds(c.routes), id);
      if id !in RouteIds(c.routes) { MergedHoldsAllOthers(c, id); }
    }
    forall id | id in MiddleIds(MiddleFnsOf(c)) ensures id in SubIds(c.all) {
      MergedHoldsOnlyParticipants(c, id);
    }
  }

  lemma WrongIffUndeclared(c: Exchange, w: Wire, errors: Entries<RpcError>, thrownIds: set<string>)
    requires FromWire(c, w, errors, thrownIds)
    ensures HasFatal(errors, thrownIds, Elements(SubIds(c.all))) <==> WrongOnWire(SubIds(c.all), w.body)
  {
    hide ResponseOf, CollectedErrors, Find;
    var ids, body := SubIds(c.all), w.body;
    if HasFatal(errors, thrownIds, Elements(ids)) {
      var id :| Find(errors, id).Some? && (id in thrownIds || id !in Elements(ids));
      CollectedFinds(ids, body, w.headers, w.skip, id);
      FindIsThere(body.thrown, id);
      FindIsThere(body.entries, id);
    }
    if t :| t in body.thrown && (t.1.errorType != VALIDATION_ERROR || t.0 !in ids) {
      CollectedFinds(ids, body, w.headers, w.skip, t.0);
      FindIsThere(body.thrown, t.0);
      assert t.1.errorType != VALIDATION_ERROR ==> t.0 in UndeclaredIds(body.thrown);
    }
    if e :| e in body.entries && Unasked(ids, e) {
      var i :| 0 <= i < |body.entries| && body.entries[i] == e;
      FindUnique(body.entries, i);
      CollectedFinds(ids, body, w.headers, w.skip, e.0);
    }
  }

  /** The fatal slot is filled exactly when something went wrong that no participant declared. */
  lemma FatalIsTold(c: Exchange, w: Wire, errors: Entries<RpcError>, thrownIds: set<string>, r: CallResult)
    requires IsExchange(c) && NamesAreUnused(c) && FromWire(c, w, errors, thrownIds)
    requires BuiltFrom(c, errors, thrownIds, r)
    ensures r.fatal.Some? <==> WrongOnWire(SubIds(c.all), w.body)
  {
    hide IsExchange, NamesAreUnused, FromWire, MiddleFnsOf, Fatal, HasFatal, WrongOnWire, RouteParts, NamedErrors,
      NamedValues;
    EveryoneIsClaimed(c);
    WrongIffUndeclared(c, w, errors, thrownIds);
    FatalIff(errors, thrownIds, MiddleIds(MiddleFnsOf(c)), RouteIds(c.routes));
  }

  // ---------- A call nobody answered ----------

  /** Every slot but the fatal one is empty. */
  ghost predicate NothingTold(routes: Routes, r: CallResult) {
    && r.middleFnResults == [] && r.middleFnErrors == []
    && r.routeResult == (if routes.Single? then One(Undefined) else Nothing)
    && r.routeError == (if routes.Single? then One(None) else Nothing)
  }

  lemma NothingIsThere<V>(es: Entries<V>)
    requires forall name :: Find(es, name) == None
    ensures es == []
  {
    if es != [] { assert Find(es, es[0].0).Some?; }
  }

  /** No participant was answered, and the errors are nobody's. */
  ghost predicate Unanswered(c: Exchange, errors: Entries<RpcError>, thrownIds: set<string>) {
    && (forall m :: m in c.all ==> m.value == Undefined)
    && (forall m :: m in SubsOf(c.routes) ==> m.value == Undefined)
    && (c.record.Some? ==> forall e :: e in c.record.value ==> e.1.value == Undefined)
    && forall id :: id in SubIds(c.all) ==> Declared(errors, thrownIds, id) == None
  }

  function SubsOf(routes: Routes): seq<Sub> {
    match routes case Single(sub) => [sub] case Workflow(subs) => subs case NoRoute => []
  }

  lemma NobodyIsTold(c: Exchange, errors: Entries<RpcError>, thrownIds: set<string>, r: CallResult)
    requires IsExchange(c) && Unanswered(c, errors, thrownIds) && BuiltFrom(c, errors, thrownIds, r)
    ensures NothingTold(c.routes, r)
  {
    hide AnswerOf, Others, Merged, UniqueNames, NamedErrors, NamedValues, Fatal, Find, Declared;
    forall name ensures Find(r.middleFnErrors, name) == None && Find(r.middleFnResults, name) == None {
      MergedFinds(c, name);
      NamedErrorsFind(errors, thrownIds, MiddleFnsOf(c), name);
      NamedValuesFind(MiddleFnsOf(c), name);
      if NamedSub(c, name).Some? { NamedIsUnanswered(c, errors, thrownIds, name); }
    }
    NothingIsThere(r.middleFnErrors);
    NothingIsThere(r.middleFnResults);
    if c.routes.Workflow? { SilentFlow(c, errors, thrownIds); }
  }

  lemma NamedIsUnanswered(c: Exchange, errors: Entries<RpcError>, thrownIds: set<string>, name: string)
    requires IsExchange(c) && Unanswered(c, errors, thrownIds) && NamedSub(c, name).Some?
    ensures NamedSub(c, name).value.value == Undefined
  {
    hide AnswerOf, Others, UniqueNames, Find;
    var routeIds := RouteIds(c.routes);
    AnswerAmongOthers(c.all, routeIds, name);
    if name in OtherIds(c) && !Recorded(c.record, name) {
      var i :| 0 <= i < |c.all| && SubIds(c.all)[i] == name;
      AnswerOfIs(c.all, name, i);
    } else {
      FindIsThere(c.record.value, name);
    }
  }

  lemma SilentFlow(c: Exchange, errors: Entries<RpcError>, thrownIds: set<string>)
    requires IsExchange(c) && Unanswered(c, errors, thrownIds) && c.routes.Workflow?
    ensures NoValue(ValuesOf(c.routes.subs)) && NoError(DeclaredOf(errors, thrownIds, c.routes.subs))
  {
    hide Declared, UniqueNames;
    var subs := c.routes.subs;
    forall i | 0 <= i < |subs| ensures subs[i].value == Undefined && Declared(errors, thrownIds, subs[i].id) == None {
      assert subs[i] in SubsOf(c.routes) && SubIds(subs)[i] in RouteIds(c.routes);
    }
  }

  // ---------- The sub-requests the caller holds ----------

  /** The routes of a call: one, those of a workflow in their order, or none. */
  datatype Choice = OneRoute(route: SubRequest) | ManyRoutes(routes: seq<SubRequest>) | NoChoice

  function ChosenSubs(choice: Choice): seq<SubRequest> {
    match choice case OneRoute(route) => [route] case ManyRoutes(routes) => routes case NoChoice => []
  }

  function NamedSubs(record: Option<Entries<SubRequest>>): seq<SubRequest> {
    if record.None? then [] else seq(|record.value|, i requires 0 <= i < |record.value| => record.value[i].1)
  }

  /** Everything submitted, in the order it is filed: the routes, then the middleFns of the record. */
  function Submitted(choice: Choice, record: Option<Entries<SubRequest>>): seq<SubRequest> {
    ChosenSubs(choice) + NamedSubs(record)
  }

  /** What a sub-request is answered: the wire's value for its id, if it is the last submitted under it. */
  function AnswerTo(submitted: seq<SubRequest>, x: SubRequest, w: Wire): Received {
    if LastUnder(submitted, x.id) == Some(x) then ValueOnWire(w, x.id) else Undefined
  }

  function Claim(submitted: seq<SubRequest>, x: SubRequest, w: Wire): Sub {
    Sub(x.id, AnswerTo(submitted, x, w))
  }

  function Claims(submitted: seq<SubRequest>, subs: seq<SubRequest>, w: Wire): (r: seq<Sub>)
    ensures |r| == |subs|
  {
    seq(|subs|, i requires 0 <= i < |subs| => Claim(submitted, subs[i], w))
  }

  function RouteClaims(submitted: seq<SubRequest>, choice: Choice, w: Wire): Routes {
    match choice
    case OneRoute(route) => Single(Claim(submitted, route, w))
    case ManyRoutes(routes) => Workflow(Claims(submitted, routes, w))
    case NoChoice => NoRoute
  }

  function RecordClaims(
    submitted: seq<SubRequest>, record: Option<Entries<SubRequest>>, w: Wire): (r: Option<Entries<Sub>>)
    ensures r.Some? == record.Some? && (r.Some? ==> |r.value| == |record.value|)
  {
    if record.None? then None
    else Some(seq(|record.value|, i requires 0 <= i < |record.value| =>
      (record.value[i].0, Claim(submitted, record.value[i].1, w))))
  }

  function OnWire(ids: seq<string>, w: Wire): (r: seq<Sub>)
    ensures |r| == |ids|
  {
    seq(|ids|, i requires 0 <= i < |ids| => Sub(ids[i], ValueOnWire(w, ids[i])))
  }

  /** A call as its response leaves it. `asked` are the ids that took part. */
  function Answered(asked: seq<string>, choice: Choice, record: Option<Entries<SubRequest>>, w: Wire): Exchange {
    var submitted := Submitted(choice, record);
    Exchange(OnWire(asked, w), RouteClaims(submitted, choice, w), RecordClaims(submitted, record, w))
  }

  /** The fatal slot holds the first error on the wire that nobody declared: of the listed middleFns and then the
      routes, in their order, or else the first to arrive that is nobody's. */
  ghost predicate FirstFatalTold(c: Exchange, w: Wire, fatal: Option<RpcError>) {
    var ids := SubIds(c.all);
    IsFatal(CollectedErrors(ids, w.body, w.headers, w.skip), UndeclaredOn(ids, w.body),
      MiddleIds(MiddleFnsOf(c)) + RouteIds(c.routes), fatal)
  }

  /** Every slot of a result says what the wire says of those it is about. */
  ghost predicate Told(c: Exchange, w: Wire, r: CallResult) {
    && RoutesTold(c.routes, w, r)
    && (forall name :: NameTold(NamedSub(c, name), w, r, name))
    && FirstFatalTold(c, w, r.fatal)
    && (NamesAreUnused(c) ==> (r.fatal.Some? <==> WrongOnWire(SubIds(c.all), w.body)))
  }

  lemma FirstFatalIsTold(c: Exchange, w: Wire, errors: Entries<RpcError>, thrownIds: set<string>, r: CallResult)
    requires FromWire(c, w, errors, thrownIds) && BuiltFrom(c, errors, thrownIds, r)
    ensures FirstFatalTold(c, w, r.fatal)
  {
    hide CollectedErrors, MiddleFnsOf, IsFatal, Fatal, RouteParts, NamedErrors, NamedValues;
    FatalIsFirst(errors, thrownIds, MiddleIds(MiddleFnsOf(c)), RouteIds(c.routes));
  }

  lemma AllIsTold(c: Exchange, w: Wire, errors: Entries<RpcError>, thrownIds: set<string>, r: CallResult)
    requires IsExchange(c) && FromWire(c, w, errors, thrownIds) && BuiltFrom(c, errors, thrownIds, r)
    ensures Told(c, w, r)
  {
    hide IsExchange, FromWire, BuiltFrom, NamesAreUnused, RoutesTold, NameTold, NamedSub, WrongOnWire, FirstFatalTold;
    RoutesAreTold(c, w, errors, thrownIds, r);
    FirstFatalIsTold(c, w, errors, thrownIds, r);
    forall name ensures NameTold(NamedSub(c, name), w, r, name) {
      NameIsTold(c, w, errors, thrownIds, r, name);
    }
    if NamesAreUnused(c) { FatalIsTold(c, w, errors, thrownIds, r); }
  }

  // ---------- Who is answered ----------

  /** A wire with one value. */
  function OneValue(id: string): Wire {
    Wire(ResponseBody([(id, Data(0))], [], None), _ => None, None)
  }

  /** A sub-request gets what the wire says of its id, whatever that is, exactly when no later one has its id. */
  lemma AnsweredIffLast(submitted: seq<SubRequest>, x: SubRequest)
    ensures (forall w: Wire :: AnswerTo(submitted, x, w) == ValueOnWire(w, x.id)) <==>
              exists m :: IsLast(submitted, x, m)
  {
    hide LastUnder, IsLast;
    FiledIffLast(submitted, x);
    assert ValueOnWire(OneValue(x.id), x.id) == Data(0);
    assert LastUnder(submitted, x.id) != Some(x) ==> AnswerTo(submitted, x, OneValue(x.id)) == Undefined;
  }

  /** The participants of a call: everything submitted, and what was restored. */
  ghost predicate AreAsked(asked: seq<string>, submitted: seq<SubRequest>) {
    NoDup(asked) && forall x :: x in submitted ==> x.id in asked
  }

  /** The name is the id of a participant that is neither a route nor in the record. */
  ghost predicate TakenByAnother(
    asked: seq<string>, choice: Choice, record: Option<Entries<SubRequest>>, name: string)
  {
    name in asked && name !in IdsOf(ChosenSubs(choice)) && name !in IdsOf(NamedSubs(record))
  }

  /** Entry k of a record has under its name what the wire says of its middleFn's id, whatever that is, exactly when
      no other participant has the name as its id and no later sub-request has the middleFn's id. */
  lemma EntryIsHeardIff(asked: seq<string>, choice: Choice, record: Entries<SubRequest>, k: nat)
    requires AreAsked(asked, Submitted(choice, Some(record))) && UniqueNames(record) && k < |record|
    ensures var (name, x) := record[k];
            (forall w: Wire :: NamedSub(Answered(asked, choice, Some(record), w), name) ==
                               Some(Sub(x.id, ValueOnWire(w, x.id)))) <==>
              && !TakenByAnother(asked, choice, Some(record), name)
              && exists m :: IsLast(Submitted(choice, Some(record)), x, m)
  {
    hide LastUnder, IsLast, AreAsked, UniqueNames, ValueOnWire, AnswerTo, TakenByAnother, NamedSub;
    var name, x := record[k].0, record[k].1;
    var submitted := Submitted(choice, Some(record));
    AnsweredIffLast(submitted, x);
    forall w: Wire
      ensures NamedSub(Answered(asked, choice, Some(record), w), name) == Some(Sub(x.id, ValueOnWire(w, x.id))) <==>
              !TakenByAnother(asked, choice, Some(record), name) && AnswerTo(submitted, x, w) == ValueOnWire(w, x.id)
    {
      EntryStandsFor(asked, choice, record, k, w);
    }
    EntryStandsFor(asked, choice, record, k, OneValue(x.id));
  }

  lemma EntryStandsFor(asked: seq<string>, choice: Choice, record: Entries<SubRequest>, k: nat, w: Wire)
    requires AreAsked(asked, Submitted(choice, Some(record))) && UniqueNames(record) && k < |record|
    ensures var (name, x) := record[k];
            var named := NamedSub(Answered(asked, choice, Some(record), w), name);
            if TakenByAnother(asked, choice, Some(record), name) then named.Some? && named.value.id == name != x.id
            else named == Some(Claim(Submitted(choice, Some(record)), x, w))
  {
    hide Find, AnswerOf, Others, ValueOnWire, LastUnder, Recorded;
    var c, name := Answered(asked, choice, Some(record), w), record[k].0;
    AnsweredIsExchange(asked, choice, Some(record), w);
    FindUnique(c.record.value, k);
    AnswerAmongOthers(c.all, RouteIds(c.routes), name);
    assert IdsOf(NamedSubs(Some(record)))[k] == record[k].1.id;
  }

  lemma AnsweredIsExchange(asked: seq<string>, choice: Choice, record: Option<Entries<SubRequest>>, w: Wire)
    requires AreAsked(asked, Submitted(choice, record)) && (record.Some? ==> UniqueNames(record.value))
    ensures var c := Answered(asked, choice, record, w);
            && IsExchange(c) && SubIds(c.all) == asked && RouteIds(c.routes) == IdsOf(ChosenSubs(choice))
            && forall id :: Recorded(c.record, id) <==> id in IdsOf(NamedSubs(record))
  {
    hide ValueOnWire, LastUnder;
    var c, submitted := Answered(asked, choice, record, w), Submitted(choice, record);
    assert SubIds(c.all) == asked;
    assert RouteIds(c.routes) == IdsOf(ChosenSubs(choice));
    forall id | id in RouteIds(c.routes) ensures id in asked {
      var i :| 0 <= i < |ChosenSubs(choice)| && IdsOf(ChosenSubs(choice))[i] == id;
      assert submitted[i] in submitted;
    }
    if record.Some? {
      var named := NamedSubs(record);
      forall e | e in c.record.value ensures e.1.id in asked && e.1.id in IdsOf(named) {
        var i :| 0 <= i < |named| && c.record.value[i] == e;
        assert submitted[|ChosenSubs(choice)| + i] == named[i];
        assert submitted[|ChosenSubs(choice)| + i] in submitted && IdsOf(named)[i] == e.1.id;
      }
      forall id | id in IdsOf(named) ensures Recorded(c.record, id) {
        var i :| 0 <= i < |named| && IdsOf(named)[i] == id;
        assert c.record.value[i] in c.record.value;
      }
    }
  }

  /** One route asked for twice in a workflow: the first place stays empty, whatever the server answered. */
  lemma RepeatedRouteIsLost(asked: seq<string>, a: SubRequest, b: SubRequest, w: Wire, r: CallResult)
    requires a != b && a.id == b.id && !ValueOnWire(w, a.id).Undefined?
    requires Told(Answered(asked, ManyRoutes([a, b]), None, w), w, r)
    ensures r.routeResult == Many([Undefined, ValueOnWire(w, a.id)])
    ensures r.routeError == if DeclaredOnWire(w, a.id).None? then Nothing
                            else Many([DeclaredOnWire(w, a.id), DeclaredOnWire(w, a.id)])
  {
    hide ValueOnWire, DeclaredOnWire, NameTold, NamedSub, NamesAreUnused, WrongOnWire, FirstFatalTold;
    var subs := Claims([a, b], [a, b], w);
    assert Submitted(ManyRoutes([a, b]), None) == [a, b];
    LastOfTwo(a, b);
    assert ValuesOf(subs) == [Undefined, ValueOnWire(w, a.id)];
    assert ValuesOf(subs)[1] in ValuesOf(subs);
    assert DeclaredOnes(w, subs) == [DeclaredOnWire(w, a.id), DeclaredOnWire(w, a.id)];
    assert DeclaredOnes(w, subs)[0] in DeclaredOnes(w, subs);
  }

  lemma LastOfTwo(a: SubRequest, b: SubRequest)
    requires a.id == b.id
    ensures LastUnder([a, b], a.id) == Some(b)
  {
  }

  /** One middleFn under two names of the record: the first name has no result, the error stands under both. */
  lemma RepeatedEntryIsLost(
    asked: seq<string>, a: SubRequest, b: SubRequest, x: string, y: string, w: Wire, r: CallResult)
    requires a != b && a.id == b.id && x != y && asked == [a.id] && !ValueOnWire(w, a.id).Undefined?
    requires Told(Answered(asked, NoChoice, Some([(x, a), (y, b)]), w), w, r)
    ensures Find(r.middleFnResults, x) == None && Find(r.middleFnResults, y) == Some(ValueOnWire(w, a.id))
    ensures Find(r.middleFnErrors, x) == Find(r.middleFnErrors, y) == DeclaredOnWire(w, a.id)
  {
    hide ValueOnWire, DeclaredOnWire, NamedSub, NamesAreUnused, WrongOnWire, Find, RoutesTold, FirstFatalTold;
    var record := [(x, a), (y, b)];
    assert Submitted(NoChoice, Some(record)) == [a, b];
    assert NamedSubs(Some(record)) == [a, b];
    LastOfTwo(a, b);
    assert IdsOf([a, b]) == [a.id, a.id];
    EntryStandsFor(asked, NoChoice, record, 0, w);
    EntryStandsFor(asked, NoChoice, record, 1, w);
  }

  /** A middleFn of the record with the id of the route: it takes the route's result. */
  lemma EntryTakesTheRoutesResult(
    asked: seq<string>, route: SubRequest, m: SubRequest, name: string, w: Wire, r: CallResult)
    requires route != m && route.id == m.id && asked == [m.id] && !ValueOnWire(w, m.id).Undefined?
    requires Told(Answered(asked, OneRoute(route), Some([(name, m)]), w), w, r)
    ensures r.routeResult == One(Undefined) && Find(r.middleFnResults, name) == Some(ValueOnWire(w, m.id))
  {
    hide ValueOnWire, DeclaredOnWire, NamedSub, NamesAreUnused, WrongOnWire, Find, FirstFatalTold;
    var record := [(name, m)];
    assert Submitted(OneRoute(route), Some(record)) == [route, m];
    assert NamedSubs(Some(record)) == [m];
    LastOfTwo(route, m);
    EntryStandsFor(asked, OneRoute(route), record, 0, w);
  }

  // ---------- The call ----------

  /** The ids the metadata is looked up for: those of the routes, or one that stands for none. */
  function RequestIds(choice: Choice): seq<string> {
    if ChosenSubs(choice) == [] then ["no-route"] else IdsOf(ChosenSubs(choice))
  }

  /** What the client knows when a call starts: the middleFns of the routes it has metadata of, the middleFns
      prefilled, and the id of the metadata request it sends along when it lacks metadata of a participant. */
  datatype Client = Client(known: map<string, seq<string>>, prefilled: set<string>, metadata: Option<string>)

  /** The id is one the metadata is looked up for. */
  ghost predicate IsLookedUp(choice: Choice, id: string) {
    match choice
    case OneRoute(route) => id == route.id
    case ManyRoutes(routes) => if routes == [] then id == "no-route" else exists x :: x in routes && x.id == id
    case NoChoice => id == "no-route"
  }

  lemma IsLookedUpIff(choice: Choice, id: string)
    ensures IsLookedUp(choice, id) <==> id in RequestIds(choice)
  {
    var subs := ChosenSubs(choice);
    if x :| x in subs && x.id == id {
      var i :| 0 <= i < |subs| && subs[i] == x;
      assert IdsOf(subs)[i] == id;
    }
    if id in IdsOf(subs) {
      var i :| 0 <= i < |subs| && IdsOf(subs)[i] == id;
      assert subs[i] in subs;
    }
  }

  /** A participant of the call: submitted, a prefilled middleFn that a route depends on and that is no route itself, or
      the metadata request. */
  ghost predicate TakesPart(choice: Choice, record: Option<Entries<SubRequest>>, client: Client, id: string) {
    || (exists x :: x in Submitted(choice, record) && x.id == id)
    || (id != "" && !IsLookedUp(choice, id) && id in client.prefilled
        && exists r :: IsLookedUp(choice, r) && r in client.known && id in client.known[r])
    || client.metadata == Some(id)
  }

  lemma TakesPartIff(choice: Choice, record: Option<Entries<SubRequest>>, client: Client, id: string)
    ensures TakesPart(choice, record, client, id) <==>
              || id in IdsOf(Submitted(choice, record))
              || ToRestore(RequestIds(choice), RequestIds(choice), client.known, client.prefilled, id)
              || client.metadata == Some(id)
  {
    hide IsLookedUp, RequestIds, Submitted, IdsOf;
    forall r ensures IsLookedUp(choice, r) <==> r in RequestIds(choice) { IsLookedUpIff(choice, r); }
    var subs := Submitted(choice, record);
    if x :| x in subs && x.id == id { MemberId(subs, x); }
    if id in IdsOf(subs) { var x := MemberWith(subs, id); }
  }

  /** These are the ids of all participants. */
  ghost predicate TakePart(choice: Choice, record: Option<Entries<SubRequest>>, client: Client, ids: seq<string>) {
    forall id :: id in ids <==> TakesPart(choice, record, client, id)
  }

  lemma TakePartIff(choice: Choice, record: Option<Entries<SubRequest>>, client: Client, ids: seq<string>)
    ensures TakePart(choice, record, client, ids) <==>
              forall id :: id in ids <==>
                || id in IdsOf(Submitted(choice, record))
                || ToRestore(RequestIds(choice), RequestIds(choice), client.known, client.prefilled, id)
                || client.metadata == Some(id)
  {
    hide TakesPart, IdsOf, Submitted, ToRestore, RequestIds;
    forall id
      ensures TakesPart(choice, record, client, id) <==>
                || id in IdsOf(Submitted(choice, record))
                || ToRestore(RequestIds(choice), RequestIds(choice), client.known, client.prefilled, id)
                || client.metadata == Some(id)
    {
      TakesPartIff(choice, record, client, id);
    }
  }

  /** No metadata is sent along, yet that of a route is missing: the call is not sent. */
  ghost predicate LacksMetadata(choice: Choice, client: Client) {
    client.metadata.None? && exists id :: IsLookedUp(choice, id) && id !in client.known
  }

  lemma LacksMetadataIff(choice: Choice, client: Client)
    ensures LacksMetadata(choice, client) <==>
              client.metadata.None? && exists id :: id in RequestIds(choice) && id !in client.known
  {
    hide IsLookedUp, RequestIds;
    forall r ensures IsLookedUp(choice, r) <==> r in RequestIds(choice) { IsLookedUpIff(choice, r); }
  }

  /** Files some sub-requests one by one; a resolved one throws. */
  method AddAll(request: ClientRequest, subs: seq<SubRequest>, ghost before: seq<SubRequest>) returns (threw: bool)
    requires request.Valid() && request.subRequestList == Filed(before)
    modifies request`subRequestList
    ensures request.Valid() && threw == exists s :: s in subs && s.isResolved
    ensures !threw ==> request.subRequestList == Filed(before + subs)
  {
    hide Filed, Replaced, ClientRequest.Valid;
    assert before + [] == before;
    for i := 0 to |subs|
      invariant request.Valid() && request.subRequestList == Filed(before + subs[..i])
      invariant forall j :: 0 <= j < i ==> !subs[j].isResolved
    {
      FiledStep(before, subs, i);
      threw := request.AddSubRequest(subs[i]);
      if threw { return; }
    }
    assert subs[..|subs|] == subs;
    threw := false;
  }

  lemma FiledStep(before: seq<SubRequest>, subs: seq<SubRequest>, i: nat)
    requires i < |subs|
    ensures Filed(before + subs[..i + 1]) == Replaced(Filed(before + subs[..i]), subs[i])
  {
    hide Replaced;
    var all := before + subs[..i + 1];
    assert all[..|all| - 1] == before + subs[..i];
  }

  /** The request for some routes and middleFns, filed in this order. */
  method NewRequest(routes: seq<SubRequest>, middleFns: seq<SubRequest>) returns (r: Option<ClientRequest>)
    ensures r.Some? <==> forall s :: s in routes + middleFns ==> !s.isResolved
    ensures r.Some? ==> fresh(r.value) && r.value.Valid() && r.value.subRequestList == Filed(routes + middleFns)
    ensures r.Some? ==> r.value.errors == [] && r.value.thrownErrorIds == {}
  {
    hide Filed;
    var request := new ClientRequest();
    NothingFiled();
    var threw := AddAll(request, routes, []);
    if threw { return None; }
    assert [] + routes == routes;
    threw := AddAll(request, middleFns, routes);
    if threw { return None; }
    r := Some(request);
  }

  lemma NothingFiled()
    ensures Filed([]) == []
  {
  }

  function Held(x: SubRequest): Sub
    reads x
  {
    Sub(x.id, x.resolvedValue)
  }

  function AllHeld(subs: seq<SubRequest>): (r: seq<Sub>)
    reads subs
    ensures |r| == |subs|
  {
    seq(|subs|, i requires 0 <= i < |subs| reads subs => Held(subs[i]))
  }

  function RoutesHeld(choice: Choice): Routes
    reads ChosenSubs(choice)
  {
    match choice
    case OneRoute(route) =>
      assert ChosenSubs(choice)[0] == route;
      Single(Held(route))
    case ManyRoutes(routes) => Workflow(AllHeld(routes))
    case NoChoice => NoRoute
  }

  function RecordHeld(record: Option<Entries<SubRequest>>): (r: Option<Entries<Sub>>)
    reads NamedSubs(record)
  {
    if record.None? then None
    else
      var held := AllHeld(NamedSubs(record));
      Some(seq(|record.value|, i requires 0 <= i < |record.value| => (record.value[i].0, held[i])))
  }

  /** A call as its sub-requests stand now. */
  function Standing(list: seq<SubRequest>, choice: Choice, record: Option<Entries<SubRequest>>): Exchange
    reads list, ChosenSubs(choice), NamedSubs(record)
  {
    Exchange(AllHeld(list), RoutesHeld(choice), RecordHeld(record))
  }

  lemma StandingIsAnswered(list: seq<SubRequest>, choice: Choice, record: Option<Entries<SubRequest>>, w: Wire)
    requires forall x :: x in list ==> x.resolvedValue == ValueOnWire(w, x.id)
    requires forall x :: x in Submitted(choice, record) ==>
               x.resolvedValue == AnswerTo(Submitted(choice, record), x, w)
    ensures Standing(list, choice, record) == Answered(IdsOf(list), choice, record, w)
  {
    hide ValueOnWire, AnswerTo;
    var submitted, chosen, named := Submitted(choice, record), ChosenSubs(choice), NamedSubs(record);
    assert forall i :: 0 <= i < |list| ==> list[i] in list;
    assert AllHeld(list) == OnWire(IdsOf(list), w);
    forall i | 0 <= i < |chosen| ensures chosen[i] in submitted { assert submitted[i] == chosen[i]; }
    forall i | 0 <= i < |named| ensures named[i] in submitted { assert submitted[|chosen| + i] == named[i]; }
    assert AllHeld(chosen) == Claims(submitted, chosen, w);
    if record.Some? {
      assert RecordHeld(record).value == RecordClaims(submitted, record, w).value;
    }
  }

  /** The fatal slot holds the first thrown error in the order of the middleFns and then the routes, or else the
      first that is nobody's. */
  ghost predicate HasFirstFatal(c: Exchange, errors: Entries<RpcError>, thrownIds: set<string>, r: CallResult) {
    IsFatal(errors, thrownIds, MiddleIds(MiddleFnsOf(c)) + RouteIds(c.routes), r.fatal)
  }

  /** The result of a call as its sub-requests stand. */
  method BuildFrom(request: ClientRequest, choice: Choice, record: Option<Entries<SubRequest>>) returns (r: CallResult)
    ensures BuiltFrom(Standing(request.subRequestList, choice, record), request.errors, request.thrownErrorIds, r)
    ensures HasFirstFatal(Standing(request.subRequestList, choice, record), request.errors, request.thrownErrorIds, r)
  {
    hide Others, Fatal, NamedErrors, NamedValues, RouteParts, IsFatal;
    var routes := RoutesHeld(choice);
    var merged := MergeMiddleFns(RecordHeld(record), Others(AllHeld(request.subRequestList), RouteIds(routes)));
    r := BuildResult(routes, merged, request.errors, request.thrownErrorIds);
    FatalIsFirst(request.errors, request.thrownErrorIds, MiddleIds(merged), RouteIds(routes));
  }

  /** Nothing is held for anyone. */
  lemma StandingIsUnanswered(
    list: seq<SubRequest>, choice: Choice, record: Option<Entries<SubRequest>>, errors: Entries<RpcError>,
    thrownIds: set<string>)
    requires forall x :: x in list || x in Submitted(choice, record) ==> x.resolvedValue == Undefined
    requires forall id :: id in IdsOf(list) ==> Declared(errors, thrownIds, id) == None
    ensures Unanswered(Standing(list, choice, record), errors, thrownIds)
  {
    hide Declared;
    var submitted, chosen, named := Submitted(choice, record), ChosenSubs(choice), NamedSubs(record);
    assert forall i :: 0 <= i < |list| ==> list[i] in list;
    assert SubIds(AllHeld(list)) == IdsOf(list);
    forall i | 0 <= i < |chosen| ensures chosen[i] in submitted { assert submitted[i] == chosen[i]; }
    forall i | 0 <= i < |named| ensures named[i] in submitted { assert submitted[|chosen| + i] == named[i]; }
  }

  /** Every sub-request the caller holds has an id that is filed. */
  ghost predicate Covers(list: seq<SubRequest>, submitted: seq<SubRequest>) {
    DistinctRequests(list) && forall x :: x in submitted ==> x.id in IdsOf(list)
  }

  lemma StandingIsExchange(list: seq<SubRequest>, choice: Choice, record: Option<Entries<SubRequest>>)
    requires Covers(list, Submitted(choice, record)) && (record.Some? ==> UniqueNames(record.value))
    ensures IsExchange(Standing(list, choice, record))
    ensures SubIds(Standing(list, choice, record).all) == IdsOf(list)
    ensures Standing(list, choice, record).routes == RoutesHeld(choice)
    ensures RouteIds(RoutesHeld(choice)) == IdsOf(ChosenSubs(choice))
  {
    var submitted, chosen, named := Submitted(choice, record), ChosenSubs(choice), NamedSubs(record);
    assert SubIds(AllHeld(list)) == IdsOf(list);
    forall i | 0 <= i < |chosen| ensures chosen[i].id in IdsOf(list) { assert submitted[i] in submitted; }
    forall i | 0 <= i < |named| ensures named[i].id in IdsOf(list) { assert submitted[|chosen| + i] in submitted; }
    assert RouteIds(RoutesHeld(choice)) == IdsOf(chosen);
  }

  /** A list that filed these sub-requests and then gained others holds, of these, the last under each id, but for
      the id of the metadata request. */
  ghost predicate HoldsLast(list: seq<SubRequest>, submitted: seq<SubRequest>, metadata: Option<string>) {
    && Covers(list, submitted)
    && forall x :: x in submitted && Some(x.id) != metadata ==>
         (x in list <==> LastUnder(submitted, x.id) == Some(x))
  }

  lemma FiledHoldsLast(list: seq<SubRequest>, submitted: seq<SubRequest>)
    requires Filed(submitted) <= list && DistinctRequests(list)
    requires forall i :: |Filed(submitted)| <= i < |list| ==> list[i] !in submitted
    ensures HoldsLast(list, submitted, None)
  {
    hide Filed, LastUnder;
    var filed := Filed(submitted);
    FiledIs(submitted);
    forall x | x in submitted ensures x.id in IdsOf(list) && (x in list <==> LastUnder(submitted, x.id) == Some(x)) {
      assert x in list <==> x in filed;
      MemberId(submitted, x);
      LastUnderIs(submitted, x.id);
      var last := LastUnder(submitted, x.id).value;
      assert last in filed;
      MemberId(list, last);
    }
  }

  lemma MemberId(list: seq<SubRequest>, x: SubRequest)
    requires x in list
    ensures x.id in IdsOf(list)
  {
    var i :| 0 <= i < |list| && list[i] == x;
    assert IdsOf(list)[i] == x.id;
  }

  lemma HoldsLastCovers(list: seq<SubRequest>, submitted: seq<SubRequest>, metadata: Option<string>)
    requires HoldsLast(list, submitted, metadata)
    ensures Covers(list, submitted)
  {
  }

  /** With the participants settled, every sub-request submitted holds its answer. */
  lemma HoldersAreAnswered(list: seq<SubRequest>, submitted: seq<SubRequest>, w: Wire)
    requires HoldsLast(list, submitted, w.skip)
    requires forall x :: x in list ==> x.resolvedValue == ValueOnWire(w, x.id)
    requires forall x :: x in submitted && x !in list ==> x.resolvedValue == Undefined
    ensures forall x :: x in submitted ==> x.resolvedValue == AnswerTo(submitted, x, w)
  {
    hide LastUnder, Covers, SaidOf, Find;
  }

  /** Reads a response into a prepared request and builds the result. */
  method ReadResponse(
    request: ClientRequest, choice: Choice, record: Option<Entries<SubRequest>>, w: Wire) returns (r: CallResult)
    requires request.Valid() && request.errors == [] && request.thrownErrorIds == {} && IsWire(w)
    requires record.Some? ==> UniqueNames(record.value)
    requires HoldsLast(request.subRequestList, Submitted(choice, record), w.skip)
    requires forall x :: x in request.subRequestList || x in Submitted(choice, record) ==> x.resolvedValue == Undefined
    requires CLIENT_REQUEST_ERROR_ID !in IdsOf(request.subRequestList)
    modifies request`errors, request`thrownErrorIds, set s | s in request.subRequestList
    ensures w.body.platform.Some? ==> NothingTold(RoutesHeld(choice), r) && r.fatal == w.body.platform
    ensures w.body.platform.None? ==> Told(Answered(IdsOf(request.subRequestList), choice, record, w), w, r)
    ensures w.body.platform.None? ==>
              forall x :: x in Submitted(choice, record) ==>
                x.resolvedValue == AnswerTo(Submitted(choice, record), x, w)
    ensures HasFirstFatal(Standing(request.subRequestList, choice, record), request.errors, request.thrownErrorIds, r)
  {
    hide HasFirstFatal, NothingTold, Told, BuiltFrom, Answered, Standing, ResponseOf, SaidOf, Find, UniqueNames,
      IsExchange,
      CollectedErrors, UndeclaredIds, UnaskedIds, Unanswered, DistinctRequests, HoldsLast, AnswerTo;
    HoldsLastCovers(request.subRequestList, Submitted(choice, record), w.skip);
    ghost var list := request.subRequestList;
    var platform := request.HandlePlatformError(w.body);
    if !platform { request.ResolveSubRequests(w.body, w.headers, w.skip); }
    r := BuildFrom(request, choice, record);
    ghost var c := Standing(list, choice, record);
    StandingIsExchange(list, choice, record);
    if platform {
      assert request.thrownErrorIds == {CLIENT_REQUEST_ERROR_ID};
      PlatformErrorIsNobodys(IdsOf(list), w.body.platform.value);
      StandingIsUnanswered(list, choice, record, request.errors, request.thrownErrorIds);
      PlatformIsTold(c, w.body.platform.value, r);
    } else {
      assert request.thrownErrorIds ==
             UndeclaredIds(w.body.thrown) + UnaskedIds(IdsOf(list), w.body.entries);
      forall x | x in list ensures x.resolvedValue == ValueOnWire(w, x.id) {
        assert SubSettled(x, w.body.thrown, w.body, w.headers, w.skip,
            old(x.isResolved), old(x.resolvedValue), old(x.error));
        SaidIsResponse(w, x.id);
      }
      HoldersAreAnswered(list, Submitted(choice, record), w);
      StandingIsAnswered(list, choice, record, w);
      AllIsTold(c, w, request.errors, request.thrownErrorIds, r);
    }
  }

  /** A sub-request filed after others replaces at most the one with its id. */
  lemma AddedHoldsLast(list: seq<SubRequest>, submitted: seq<SubRequest>, sub: SubRequest)
    requires HoldsLast(list, submitted, None) && sub !in submitted
    ensures HoldsLast(Replaced(list, sub), submitted, Some(sub.id))
    ensures forall id :: id in IdsOf(Replaced(list, sub)) <==> id in IdsOf(list) || id == sub.id
    ensures forall x :: x in Replaced(list, sub) ==> x == sub || x in list
  {
    hide Replaced, LastUnder, DistinctRequests, IdsOf;
    ReplacedIs(list, sub);
    var after := Replaced(list, sub);
    forall id ensures id in IdsOf(after) <==> id in IdsOf(list) || id == sub.id {
      MemberId(after, sub);
      if id in IdsOf(list) && id != sub.id {
        var x := MemberWith(list, id);
        MemberId(after, x);
      }
      if id in IdsOf(after) && id != sub.id {
        var x := MemberWith(after, id);
        MemberId(list, x);
      }
    }
    assert Covers(after, submitted);
    forall x | x in submitted && Some(x.id) != Some(sub.id)
      ensures x in after <==> LastUnder(submitted, x.id) == Some(x)
    {
      assert Some(x.id) != None;
    }
  }

  lemma FiledIds(submitted: seq<SubRequest>)
    ensures forall x :: x in Filed(submitted) ==> x in submitted
    ensures forall id :: id in IdsOf(Filed(submitted)) <==> id in IdsOf(submitted)
  {
    hide Filed, LastUnder, IdsOf;
    FiledIs(submitted);
    FiledAreSubmitted(submitted);
    forall id | id in IdsOf(submitted) ensures id in IdsOf(Filed(submitted)) {
      LastUnderIs(submitted, id);
      MemberId(Filed(submitted), LastUnder(submitted, id).value);
    }
    forall id | id in IdsOf(Filed(submitted)) ensures id in IdsOf(submitted) {
      var x := MemberWith(Filed(submitted), id);
      MemberId(submitted, x);
    }
  }

  lemma MemberWith(list: seq<SubRequest>, id: string) returns (x: SubRequest)
    requires id in IdsOf(list)
    ensures x in list && x.id == id
  {
    var i :| 0 <= i < |list| && IdsOf(list)[i] == id;
    x := list[i];
  }

  const METADATA_NOT_FOUND := RpcError("route-metadata-not-found", None, 0)

  lemma {:induction false} AfterUnknownFinds(ids: seq<string>, known: map<string, seq<string>>, id: string)
    ensures Find(AfterUnknown([], ids, known), id) ==
            if id in ids && id !in known then Some(METADATA_NOT_FOUND) else None
    ensures forall e :: e in AfterUnknown([], ids, known) ==> e.1 == METADATA_NOT_FOUND
  {
    if ids != [] {
      var front, last := ids[..|ids| - 1], ids[|ids| - 1];
      assert ids == front + [last];
      AfterUnknownFinds(front, known, id);
      SetFinds(AfterUnknown([], front, known), last, METADATA_NOT_FOUND, id);
      SetMembers(AfterUnknown([], front, known), last, METADATA_NOT_FOUND);
    }
  }

  /** Missing metadata is nobody's declared error. */
  lemma UnknownIsThrown(ids: seq<string>, known: map<string, seq<string>>, thrownIds: set<string>)
    requires thrownIds == set r | r in ids && r !in known
    ensures AfterUnknown([], ids, known) == [] <==> forall id :: id in ids ==> id in known
    ensures forall id :: Declared(AfterUnknown([], ids, known), thrownIds, id) == None
  {
    var errors := AfterUnknown([], ids, known);
    hide AfterUnknown;
    forall id ensures Find(errors, id) == if id in ids && id !in known then Some(METADATA_NOT_FOUND) else None {
      AfterUnknownFinds(ids, known, id);
    }
    if forall id :: id in ids ==> id in known { NothingIsThere(errors); }
  }

  /** A call without the metadata it needs: the missing metadata is fatal, and nothing else is told. */
  lemma UnknownIsTold(
    c: Exchange, ids: seq<string>, known: map<string, seq<string>>, thrownIds: set<string>, r: CallResult)
    requires thrownIds == set r | r in ids && r !in known
    requires IsExchange(c) && Unanswered(c, AfterUnknown([], ids, known), thrownIds)
    requires BuiltFrom(c, AfterUnknown([], ids, known), thrownIds, r) && exists id :: id in ids && id !in known
    ensures NothingTold(c.routes, r) && r.fatal == Some(METADATA_NOT_FOUND)
  {
    var errors := AfterUnknown([], ids, known);
    hide AfterUnknown, IsExchange, Unanswered, NothingTold, MiddleFnsOf, Fatal, NamedErrors, NamedValues;
    NobodyIsTold(c, errors, thrownIds, r);
    var id :| id in ids && id !in known;
    AfterUnknownFinds(ids, known, id);
    FatalIff(errors, thrownIds, MiddleIds(MiddleFnsOf(c)), RouteIds(c.routes));
    FatalIsFirst(errors, thrownIds, MiddleIds(MiddleFnsOf(c)), RouteIds(c.routes));
    forall name ensures Find(errors, name).Some? ==> Find(errors, name) == Some(METADATA_NOT_FOUND) {
      AfterUnknownFinds(ids, known, name);
    }
  }

  /** The request of a call before it is sent: everything submitted, then the prefilled middleFns, then the metadata
      request. */
  method Prepare(choice: Choice, record: Option<Entries<SubRequest>>, client: Client)
    returns (r: Option<ClientRequest>)
    requires forall x :: x in Submitted(choice, record) && !x.isResolved ==> x.resolvedValue == Undefined
    ensures r.Some? <==> forall x :: x in Submitted(choice, record) ==> !x.isResolved
    ensures r.Some? ==> fresh(r.value) && r.value.Valid() && IsPrepared(r.value, choice, record, client)
    ensures r.Some? ==>
              forall x :: x in r.value.subRequestList ==> x in Submitted(choice, record) || fresh(x)
  {
    hide Filed, Replaced, LastUnder, AfterUnknown, IdsOf, ToRestore, DistinctRequests, TakePart, RequestIds, Firsts;
    var submitted := Submitted(choice, record);
    r := NewRequest(ChosenSubs(choice), NamedSubs(record));
    if r.None? { return; }
    var request := r.value;
    ghost var filed := request.subRequestList;
    FiledIds(submitted);
    FiledInOrder(submitted);
    request.RestorePrefilledMiddleFns(RequestIds(choice), client.known, client.prefilled, client.metadata.None?);
    ghost var list := request.subRequestList;
    FiledHoldsLast(list, submitted);
    forall x | x in list ensures x in submitted || (fresh(x) && IsUntouched(x)) {
      var i :| 0 <= i < |list| && list[i] == x;
      if i < |filed| { assert filed[i] in filed; }
    }
    if client.metadata.Some? {
      var sub := new SubRequest(client.metadata.value);
      AddedHoldsLast(list, submitted, sub);
      var threw := request.AddSubRequest(sub);
      ReplacedIds(list, sub);
    }
    IdsOfPrefix(filed, list);
    TakePartIff(choice, record, client, IdsOf(request.subRequestList));
  }

  lemma IdsOfPrefix(a: seq<SubRequest>, b: seq<SubRequest>)
    requires a <= b
    ensures IdsOf(a) <= IdsOf(b)
  {
  }

  /** Prepared to be sent: each participant is filed, nobody is answered, and only missing metadata is an error. */
  ghost predicate IsPrepared(
    request: ClientRequest, choice: Choice, record: Option<Entries<SubRequest>>, client: Client)
    reads request, request.subRequestList
  {
    && HoldsLast(request.subRequestList, Submitted(choice, record), client.metadata)
    && Firsts(IdsOf(Submitted(choice, record))) <= IdsOf(request.subRequestList)
    && TakePart(choice, record, client, IdsOf(request.subRequestList))
    && (forall x :: x in request.subRequestList ==> x.resolvedValue == Undefined)
    && request.errors == (if client.metadata.None? then AfterUnknown([], RequestIds(choice), client.known) else [])
    && request.thrownErrorIds ==
         if client.metadata.None? then set r | r in RequestIds(choice) && r !in client.known else {}
  }

  // ---------- The order of the participants ----------

  /** The ids but for those taken. */
  function Without(ids: seq<string>, taken: set<string>): seq<string> {
    if ids == [] then [] else (if ids[0] in taken then [] else [ids[0]]) + Without(ids[1..], taken)
  }

  /** Each id once, where it first occurs. */
  function Firsts(ids: seq<string>): seq<string> {
    if ids == [] then [] else [ids[0]] + Without(Firsts(ids[1..]), {ids[0]})
  }

  lemma {:induction false} WithoutConcat(a: seq<string>, b: seq<string>, taken: set<string>)
    ensures Without(a + b, taken) == Without(a, taken) + Without(b, taken)
  {
    hide Without;
    if a == [] {
      assert a + b == b;
      NothingWithout(taken);
    } else {
      WithoutHead(a, taken);
      WithoutHead(a + b, taken);
      assert (a + b)[1..] == a[1..] + b;
      WithoutConcat(a[1..], b, taken);
    }
  }

  lemma NothingWithout(taken: set<string>)
    ensures Without([], taken) == []
  {
  }

  lemma WithoutHead(ids: seq<string>, taken: set<string>)
    requires ids != []
    ensures Without(ids, taken) == (if ids[0] in taken then [] else [ids[0]]) + Without(ids[1..], taken)
  {
  }

  lemma {:induction false} FirstsAppend(ids: seq<string>, id: string)
    ensures Firsts(ids + [id]) == if id in ids then Firsts(ids) else Firsts(ids) + [id]
  {
    if ids != [] {
      var rest := ids[1..];
      FirstsAppend(rest, id);
      assert (ids + [id])[1..] == rest + [id];
      WithoutConcat(Firsts(rest), [id], {ids[0]});
      assert id in ids <==> id == ids[0] || id in rest;
    }
  }

  lemma {:induction false} ReplacedIds(list: seq<SubRequest>, sub: SubRequest)
    ensures IdsOf(Replaced(list, sub)) == if sub.id in IdsOf(list) then IdsOf(list) else IdsOf(list) + [sub.id]
  {
    if list != [] {
      var rest := list[1..];
      assert IdsOf(list) == [list[0].id] + IdsOf(rest);
      if list[0].id != sub.id {
        ReplacedIds(rest, sub);
        assert IdsOf(Replaced(list, sub)) == [list[0].id] + IdsOf(Replaced(rest, sub));
      }
    }
  }

  /** Sub-requests are filed in the order in which their ids first occur. */
  lemma {:induction false} FiledInOrder(submitted: seq<SubRequest>)
    ensures IdsOf(Filed(submitted)) == Firsts(IdsOf(submitted))
  {
    hide Replaced, Firsts;
    if submitted == [] {
      assert IdsOf(submitted) == [];
      NothingFirst();
    } else {
      var front, last := submitted[..|submitted| - 1], submitted[|submitted| - 1];
      FiledInOrder(front);
      FiledIds(front);
      ReplacedIds(Filed(front), last);
      FirstsAppend(IdsOf(front), last.id);
      assert IdsOf(submitted) == IdsOf(front) + [last.id];
    }
  }

  lemma NothingFirst()
    ensures Firsts([]) == []
  {
  }

  /** The participants that are not routes keep their order. */
  lemma {:induction false} OthersInOrder(all: seq<Sub>, routeIds: seq<string>)
    ensures SubIds(Others(all, routeIds)) == Without(SubIds(all), Elements(routeIds))
  {
    if all != [] {
      var front, last := all[..|all| - 1], all[|all| - 1];
      OthersInOrder(front, routeIds);
      assert SubIds(all) == SubIds(front) + [last.id];
      WithoutConcat(SubIds(front), [last.id], Elements(routeIds));
      var own := if last.id in routeIds then [] else [last];
      assert SubIds(Others(front, routeIds) + own) == SubIds(Others(front, routeIds)) + SubIds(own);
    }
  }

  /** The names of the record are no other's ids. */
  ghost predicate NamesApart(record: Entries<Sub>, others: seq<Sub>) {
    forall e, m :: e in record && m in others && e.0 == m.id ==> m.id in MiddleIds(record)
  }

  lemma {:induction false} RestoredInOrder(record: Entries<Sub>, others: seq<Sub>)
    requires DistinctSubs(others) && NamesApart(record, others)
    ensures MiddleIds(WithRestored(record, Elements(MiddleIds(record)), others)) ==
            MiddleIds(record) + Without(SubIds(others), Elements(MiddleIds(record)))
  {
    hide Find, Set;
    var recordIds := Elements(MiddleIds(record));
    if others != [] {
      var front, last := others[..|others| - 1], others[|others| - 1];
      assert others == front + [last];
      RestoredInOrder(record, front);
      assert SubIds(others) == SubIds(front) + [last.id];
      WithoutConcat(SubIds(front), [last.id], recordIds);
      var before := WithRestored(record, recordIds, front);
      if last.id !in recordIds {
        WithRestoredFinds(record, recordIds, front, last.id);
        LastRestoredIff(recordIds, front, last.id);
        NotBefore(front, last);
        FindIsThere(record, last.id);
        SetAppends(before, last.id, last);
        assert MiddleIds(before + [(last.id, last)]) == MiddleIds(before) + [last.id];
      }
    }
  }

  lemma NotBefore(front: seq<Sub>, last: Sub)
    requires DistinctSubs(front + [last])
    ensures forall m :: m in front ==> m.id != last.id
  {
    forall m | m in front ensures m.id != last.id {
      var i :| 0 <= i < |front| && front[i] == m;
      assert (front + [last])[i].id != (front + [last])[|front|].id;
    }
  }

  /** The order in which the fatal error is looked for, before the routes: the record's middleFns as it lists them, then
      the other participants that are no routes, as they were filed. */
  lemma SlotsAreInOrder(c: Exchange)
    requires IsExchange(c) && NamesAreUnused(c)
    ensures var others := Without(SubIds(c.all), Elements(RouteIds(c.routes)));
            MiddleIds(MiddleFnsOf(c)) ==
              match c.record
              case None => others
              case Some(record) => MiddleIds(record) + Without(others, Elements(MiddleIds(record)))
  {
    hide Others, WithRestored, Without, UniqueNames, Recorded;
    var others := Others(c.all, RouteIds(c.routes));
    OthersAre(c.all, RouteIds(c.routes));
    OthersInOrder(c.all, RouteIds(c.routes));
    if c.record.Some? {
      forall e, m | e in c.record.value && m in others && e.0 == m.id ensures m.id in MiddleIds(c.record.value) {
        IsAmong(others, m.id);
        RecordIds(c.record.value, e.0);
      }
      RestoredInOrder(c.record.value, others);
    } else {
      assert MiddleIds(Plain(others)) == SubIds(others);
    }
  }

  lemma ListIsAsked(list: seq<SubRequest>, submitted: seq<SubRequest>)
    requires Covers(list, submitted)
    ensures AreAsked(IdsOf(list), submitted)
  {
  }

  /** Missing metadata is the only error of a prepared request. */
  lemma LackIsAnError(choice: Choice, client: Client, errors: Entries<RpcError>, thrownIds: set<string>)
    requires errors == if client.metadata.None? then AfterUnknown([], RequestIds(choice), client.known) else []
    requires thrownIds ==
             if client.metadata.None? then set r | r in RequestIds(choice) && r !in client.known else {}
    ensures LacksMetadata(choice, client) <==> errors != []
    ensures errors == [] ==> thrownIds == {}
  {
    hide AfterUnknown, Declared, LacksMetadata, RequestIds;
    LacksMetadataIff(choice, client);
    if client.metadata.None? { UnknownIsThrown(RequestIds(choice), client.known, thrownIds); }
  }

  lemma UnsentIsTold(
    request: ClientRequest, choice: Choice, record: Option<Entries<SubRequest>>, client: Client, r: CallResult)
    requires IsPrepared(request, choice, record, client) && LacksMetadata(choice, client)
    requires record.Some? ==> UniqueNames(record.value)
    requires forall x :: x in Submitted(choice, record) ==> x.resolvedValue == Undefined
    requires BuiltFrom(Standing(request.subRequestList, choice, record), request.errors, request.thrownErrorIds, r)
    ensures NothingTold(RoutesHeld(choice), r) && r.fatal == Some(METADATA_NOT_FOUND)
  {
    hide BuiltFrom, NothingTold, AfterUnknown, Declared, TakesPart, Standing, Submitted, UniqueNames, IsExchange,
      RoutesHeld, Unanswered;
    var ids, list := RequestIds(choice), request.subRequestList;
    LacksMetadataIff(choice, client);
    StandingIsExchange(list, choice, record);
    UnknownIsThrown(ids, client.known, request.thrownErrorIds);
    StandingIsUnanswered(list, choice, record, request.errors, request.thrownErrorIds);
    UnknownIsTold(Standing(list, choice, record), ids, client.known, request.thrownErrorIds, r);
  }

  /** A whole call. A sub-request that is already resolved throws. A call that lacks metadata is not sent, and a
      response may be a platform error: then that alone is told. Otherwise every slot says what the wire says of
      those it is about, and each sub-request holds its answer. `asked` are the ids that took part. */
  method ExecuteRequest(
    choice: Choice, record: Option<Entries<SubRequest>>, client: Client, w: Wire)
    returns (r: Option<CallResult>, ghost asked: seq<string>)
    requires w.skip == client.metadata && IsWire(w) && (record.Some? ==> UniqueNames(record.value))
    requires forall x :: x in Submitted(choice, record) && !x.isResolved ==> x.resolvedValue == Undefined
    requires !TakesPart(choice, record, client, "mion-client-request")
    modifies Submitted(choice, record)
    ensures r.Some? <==> forall x :: x in Submitted(choice, record) ==> !old(x.isResolved)
    ensures r.Some? ==> AreAsked(asked, Submitted(choice, record))
    ensures r.Some? ==> Firsts(IdsOf(Submitted(choice, record))) <= asked
    ensures r.Some? ==> forall id :: id in asked <==> TakesPart(choice, record, client, id)
    ensures r.Some? && LacksMetadata(choice, client) ==>
              && NothingTold(RoutesHeld(choice), r.value)
              && r.value.fatal == Some(RpcError("route-metadata-not-found", None, 0))
    ensures r.Some? && !LacksMetadata(choice, client) && w.body.platform.Some? ==>
              NothingTold(RoutesHeld(choice), r.value) && r.value.fatal == w.body.platform
    ensures r.Some? && !LacksMetadata(choice, client) && w.body.platform.None? ==>
              && Told(Answered(asked, choice, record, w), w, r.value)
              && forall x :: x in Submitted(choice, record) ==>
                   x.resolvedValue == AnswerTo(Submitted(choice, record), x, w)
  {
    hide TakesPart, ToRestore, LacksMetadata, NothingTold, Told, Answered, AnswerTo, Standing, AfterUnknown, IsWire,
      RoutesHeld, IdsOf, Firsts, HasFirstFatal, BuiltFrom, IsExchange, Unanswered, UniqueNames;
    var prepared := Prepare(choice, record, client);
    asked := [];
    if prepared.None? { return None, asked; }
    var request := prepared.value;
    ghost var list := request.subRequestList;
    asked := IdsOf(list);
    ListIsAsked(list, Submitted(choice, record));
    LackIsAnError(choice, client, request.errors, request.thrownErrorIds);
    if request.errors != [] {
      var result := BuildFrom(request, choice, record);
      r := Some(result);
      UnsentIsTold(request, choice, record, client, result);
    } else {
      var result := ReadResponse(request, choice, record, w);
      r := Some(result);
    }
  }

  lemma PlatformIsTold(c: Exchange, error: RpcError, r: CallResult)
    requires IsExchange(c) && CLIENT_REQUEST_ERROR_ID !in SubIds(c.all)
    requires Unanswered(c, Set([], CLIENT_REQUEST_ERROR_ID, error), {CLIENT_REQUEST_ERROR_ID})
    requires BuiltFrom(c, Set([], CLIENT_REQUEST_ERROR_ID, error), {CLIENT_REQUEST_ERROR_ID}, r)
    ensures NothingTold(c.routes, r) && r.fatal == Some(error)
  {
    hide UniqueNames, NamedErrors, NamedValues, Fatal, Set, Find, Declared, MiddleFnsOf, NothingTold;
    NobodyIsTold(c, Set([], CLIENT_REQUEST_ERROR_ID, error), {CLIENT_REQUEST_ERROR_ID}, r);
    forall id | id in MiddleIds(MiddleFnsOf(c)) ensures id in SubIds(c.all) { MergedHoldsOnlyParticipants(c, id); }
    PlatformErrorIsFatal(error, MiddleIds(MiddleFnsOf(c)), RouteIds(c.routes));
  }

  lemma PlatformErrorIsNobodys(ids: seq<string>, error: RpcError)
    requires CLIENT_REQUEST_ERROR_ID !in ids
    ensures forall id :: id in ids ==>
              Declared(Set([], CLIENT_REQUEST_ERROR_ID, error), {CLIENT_REQUEST_ERROR_ID}, id) == None
  {
    forall id | id in ids ensures Find(Set([], CLIENT_REQUEST_ERROR_ID, error), id) == None {
      SetFinds([], CLIENT_REQUEST_ERROR_ID, error, id);
    }
  }
}
