/** The client's side of an error: where it comes from in a response, and which slot of the result it lands in. */
module ClientResult {
  import opened Basics

  const CLIENT_REQUEST_ERROR_ID: string := "mion-client-request"
  const VALIDATION_ERROR: string := "validation-error"

  /** A value found in a response. */
  datatype Received = Undefined | Data(tag: nat) | Failed(error: RpcError)

  /** An insertion-ordered table, as a Map or a record keeps it. */
  type Entries<V> = seq<(string, V)>

  /** A response body: what it holds for each id, the thrown errors, and the platform's error if it has one. */
  datatype ResponseBody = ResponseBody(entries: Entries<Received>, thrown: Entries<RpcError>,
    platform: Option<RpcError>)

  // ---------- Ordered tables ----------

  function Find<V>(es: Entries<V>, id: string): Option<V> {
    if es == [] then None else if es[0].0 == id then Some(es[0].1) else Find(es[1..], id)
  }

  /** Overwrites in place, or appends. */
  function Set<V>(es: Entries<V>, id: string, v: V): Entries<V> {
    if es == [] then [(id, v)]
    else if es[0].0 == id then [(id, v)] + es[1..]
    else [es[0]] + Set(es[1..], id, v)
  }

  ghost predicate UniqueNames<V>(es: Entries<V>) {
    forall i, j :: 0 <= i < j < |es| ==> es[i].0 != es[j].0
  }

  lemma {:induction false} SetFinds<V>(es: Entries<V>, id: string, v: V, k: string)
    ensures Find(Set(es, id, v), k) == if k == id then Some(v) else Find(es, k)
  {
    if es != [] && es[0].0 != id {
      SetFinds(es[1..], id, v, k);
      assert Set(es, id, v)[1..] == Set(es[1..], id, v);
    }
  }

  lemma {:induction false} SetMembers<V>(es: Entries<V>, id: string, v: V)
    ensures forall e :: e in Set(es, id, v) ==> e in es || e == (id, v)
    ensures UniqueNames(es) ==> UniqueNames(Set(es, id, v))
  {
    if es != [] && es[0].0 != id {
      SetMembers(es[1..], id, v);
      var rest := Set(es[1..], id, v);
      assert Set(es, id, v) == [es[0]] + rest;
      if UniqueNames(es) {
        forall i | 0 <= i < |rest| ensures rest[i].0 != es[0].0 {
          assert rest[i] in rest;
          if rest[i] in es[1..] {
            var j :| 0 <= j < |es| - 1 && es[1..][j] == rest[i];
            assert es[0].0 != es[j + 1].0;
          }
        }
      }
    }
  }

  lemma {:induction false} SetAppends<V>(es: Entries<V>, id: string, v: V)
    requires Find(es, id) == None
    ensures Set(es, id, v) == es + [(id, v)]
  {
    if es != [] { SetAppends(es[1..], id, v); }
  }

  lemma {:induction false} FindIsThere<V>(es: Entries<V>, id: string)
    ensures Find(es, id).Some? ==> (id, Find(es, id).value) in es
    ensures Find(es, id).None? ==> forall e :: e in es ==> e.0 != id
  {
    if es != [] && es[0].0 != id { FindIsThere(es[1..], id); }
  }

  lemma {:induction false} FindUnique<V>(es: Entries<V>, i: nat)
    requires UniqueNames(es) && i < |es|
    ensures Find(es, es[i].0) == Some(es[i].1)
  {
    if i > 0 {
      assert es[0].0 != es[i].0;
      FindUnique(es[1..], i - 1);
    }
  }

  // ---------- Collecting errors from a response ----------

  function AfterThrown(errors: Entries<RpcError>, thrown: Entries<RpcError>): Entries<RpcError> {
    if thrown == [] then errors
    else
      var last := thrown[|thrown| - 1];
      Set(AfterThrown(errors, thrown[..|thrown| - 1]), last.0, last.1)
  }

  function UndeclaredIds(thrown: Entries<RpcError>): set<string> {
    set t | t in thrown && t.1.errorType != VALIDATION_ERROR :: t.0
  }

  /** What a participant's response holds under its id: a header value when there is one, else the body's. */
  function ResponseOf(body: ResponseBody, headers: string -> Option<Received>, id: string): Received {
    if headers(id).Some? then headers(id).value
    else if Find(body.entries, id).Some? then Find(body.entries, id).value
    else Undefined
  }

  function AfterOne(
    errors: Entries<RpcError>, id: string, body: ResponseBody, headers: string -> Option<Received>,
    skip: Option<string>): Entries<RpcError>
  {
    var resp := ResponseOf(body, headers, id);
    if Some(id) == skip || Find(errors, id).Some? || !resp.Failed? then errors else Set(errors, id, resp.error)
  }

  function AfterParticipants(
    errors: Entries<RpcError>, ids: seq<string>, body: ResponseBody, headers: string -> Option<Received>,
    skip: Option<string>): Entries<RpcError>
  {
    if ids == [] then errors
    else AfterOne(AfterParticipants(errors, ids[..|ids| - 1], body, headers, skip), ids[|ids| - 1], body, headers, skip)
  }

  predicate Unasked(ids: seq<string>, entry: (string, Received)) {
    entry.0 !in ids && entry.1.Failed?
  }

  function AfterUnasked(errors: Entries<RpcError>, ids: seq<string>, entries: Entries<Received>): Entries<RpcError> {
    if entries == [] then errors
    else
      var before, last := AfterUnasked(errors, ids, entries[..|entries| - 1]), entries[|entries| - 1];
      if Unasked(ids, last) then Set(before, last.0, last.1.error) else before
  }

  function UnaskedIds(ids: seq<string>, entries: Entries<Received>): set<string> {
    set e | e in entries && Unasked(ids, e) :: e.0
  }

  function CollectedErrors(
    ids: seq<string>, body: ResponseBody, headers: string -> Option<Received>, skip: Option<string>): Entries<RpcError>
  {
    AfterUnasked(AfterParticipants(AfterThrown([], body.thrown), ids, body, headers, skip), ids, body.entries)
  }

  /** The ids whose error nobody declared: those that threw, but for validation, and those nobody asked for. */
  function UndeclaredOn(ids: seq<string>, body: ResponseBody): set<string> {
    UndeclaredIds(body.thrown) + UnaskedIds(ids, body.entries)
  }

  lemma {:induction false} AfterThrownFinds(errors: Entries<RpcError>, thrown: Entries<RpcError>, k: string)
    requires UniqueNames(thrown)
    ensures Find(AfterThrown(errors, thrown), k) == if Find(thrown, k).Some? then Find(thrown, k) else Find(errors, k)
  {
    if thrown != [] {
      var front, last := thrown[..|thrown| - 1], thrown[|thrown| - 1];
      AfterThrownFinds(errors, front, k);
      SetFinds(AfterThrown(errors, front), last.0, last.1, k);
      FindAppended(front, last, k);
      assert thrown == front + [last];
    }
  }

  lemma {:induction false} FindAppended<V>(front: Entries<V>, last: (string, V), k: string)
    requires UniqueNames(front + [last])
    ensures Find(front + [last], k) == if k == last.0 then Some(last.1) else Find(front, k)
    ensures Find(front, last.0) == None
  {
    var all := front + [last];
    if front != [] {
      assert all[0].0 != all[|front|].0;
      assert all[1..] == front[1..] + [last];
      FindAppended(front[1..], last, k);
    }
  }

  lemma {:induction false} AfterParticipantsFinds(
    errors: Entries<RpcError>, ids: seq<string>, body: ResponseBody, headers: string -> Option<Received>,
    skip: Option<string>, k: string)
    ensures var resp := ResponseOf(body, headers, k);
            Find(AfterParticipants(errors, ids, body, headers, skip), k) ==
            if Find(errors, k).None? && k in ids && Some(k) != skip && resp.Failed? then Some(resp.error)
              else Find(errors, k)
  {
    hide ResponseOf;
    if ids != [] {
      var front, last := ids[..|ids| - 1], ids[|ids| - 1];
      AfterParticipantsFinds(errors, front, body, headers, skip, k);
      var before, resp := AfterParticipants(errors, front, body, headers, skip), ResponseOf(body, headers, last);
      if resp.Failed? { SetFinds(before, last, resp.error, k); }
      assert ids == front + [last];
    }
  }

  lemma {:induction false} AfterUnaskedFinds(
    errors: Entries<RpcError>, ids: seq<string>, entries: Entries<Received>, k: string)
    requires UniqueNames(entries)
    ensures Find(AfterUnasked(errors, ids, entries), k) ==
            if k !in ids && Find(entries, k).Some?
              && Find(entries, k).value.Failed? then Some(Find(entries, k).value.error)
            else Find(errors, k)
  {
    if entries != [] {
      var front, last := entries[..|entries| - 1], entries[|entries| - 1];
      AfterUnaskedFinds(errors, ids, front, k);
      if Unasked(ids, last) { SetFinds(AfterUnasked(errors, ids, front), last.0, last.1.error, k); }
      FindAppended(front, last, k);
      assert entries == front + [last];
    }
  }

  /** The error collected for an id: the body's if nobody asked for it, else the thrown one, else the
      participant's own response if that is an error. */
  lemma CollectedFinds(
    ids: seq<string>, body: ResponseBody, headers: string -> Option<Received>, skip: Option<string>, k: string)
    requires UniqueNames(body.entries) && UniqueNames(body.thrown)
    ensures var resp, sent := ResponseOf(body, headers, k), Find(body.entries, k);
            Find(CollectedErrors(ids, body, headers, skip), k) ==
            if k !in ids && sent.Some? && sent.value.Failed? then Some(sent.value.error)
            else if Find(body.thrown, k).Some? then Find(body.thrown, k)
            else if k in ids && Some(k) != skip && resp.Failed? then Some(resp.error)
            else None
  {
    hide ResponseOf, UniqueNames, Find, AfterThrown, AfterParticipants, AfterUnasked;
    var one := AfterThrown([], body.thrown);
    var two := AfterParticipants(one, ids, body, headers, skip);
    AfterThrownFinds([], body.thrown, k);
    AfterParticipantsFinds(one, ids, body, headers, skip, k);
    AfterUnaskedFinds(two, ids, body.entries, k);
    FindNothing<RpcError>(k);
  }

  lemma FindNothing<V>(k: string)
    ensures Find<V>([], k) == None
  {
  }

  // ---------- The request ----------

  class SubRequest {
    const id: string
    var isResolved: bool
    var resolvedValue: Received
    var error: Option<RpcError>

    constructor (id: string)
      ensures this.id == id && !isResolved && resolvedValue == Undefined && error == None
    {
      this.id := id;
      isResolved, resolvedValue, error := false, Undefined, None;
    }
  }

  function IdsOf(subs: seq<SubRequest>): (ids: seq<string>)
    ensures |ids| == |subs|
  {
    seq(|subs|, i requires 0 <= i < |subs| => subs[i].id)
  }

  /** A list of sub-requests as a record keyed by id keeps it: a later one takes the place of an earlier one. */
  function Replaced(list: seq<SubRequest>, sub: SubRequest): seq<SubRequest> {
    if list == [] then [sub]
    else if list[0].id == sub.id then [sub] + list[1..]
    else [list[0]] + Replaced(list[1..], sub)
  }

  function Filed(submitted: seq<SubRequest>): seq<SubRequest> {
    if submitted == [] then []
    else Replaced(Filed(submitted[..|submitted| - 1]), submitted[|submitted| - 1])
  }

  /** The last sub-request submitted under an id. */
  function LastUnder(submitted: seq<SubRequest>, id: string): Option<SubRequest> {
    if submitted == [] then None
    else
      var last := submitted[|submitted| - 1];
      if last.id == id then Some(last) else LastUnder(submitted[..|submitted| - 1], id)
  }

  ghost predicate DistinctRequests(list: seq<SubRequest>) {
    forall i, j :: 0 <= i < j < |list| ==> list[i].id != list[j].id
  }

  lemma {:induction false} ReplacedMembers(list: seq<SubRequest>, sub: SubRequest)
    ensures sub in Replaced(list, sub)
    ensures forall s :: s in Replaced(list, sub) ==> s == sub || s in list
    ensures forall s :: s in list && s.id != sub.id ==> s in Replaced(list, sub)
  {
    if list != [] && list[0].id != sub.id { ReplacedMembers(list[1..], sub); }
  }

  lemma {:induction false} ReplacedKeepsDistinct(list: seq<SubRequest>, sub: SubRequest)
    requires DistinctRequests(list)
    ensures DistinctRequests(Replaced(list, sub))
  {
    hide DistinctRequests;
    if list == [] {
      OneIsDistinct(sub);
    } else {
      TailMembers(list);
      if list[0].id != sub.id {
        ReplacedKeepsDistinct(list[1..], sub);
        ReplacedMembers(list[1..], sub);
        HeadMembers(list[0], Replaced(list[1..], sub));
      } else {
        HeadMembers(sub, list[1..]);
      }
    }
  }

  lemma ReplacedIs(list: seq<SubRequest>, sub: SubRequest)
    requires DistinctRequests(list)
    ensures DistinctRequests(Replaced(list, sub))
    ensures forall s :: s in Replaced(list, sub) <==> s == sub || (s in list && s.id != sub.id)
  {
    hide Replaced;
    ReplacedMembers(list, sub);
    ReplacedKeepsDistinct(list, sub);
    var after := Replaced(list, sub);
    forall s | s in after && s != sub ensures s.id != sub.id {
      var i, j :| 0 <= i < |after| && after[i] == s && 0 <= j < |after| && after[j] == sub;
      assert after[if i < j then i else j].id != after[if i < j then j else i].id;
    }
  }

  lemma HeadMembers(head: SubRequest, rest: seq<SubRequest>)
    ensures forall s :: s in [head] + rest <==> s == head || s in rest
    ensures DistinctRequests([head] + rest) <==> DistinctRequests(rest) && forall s :: s in rest ==> s.id != head.id
  {
    hide DistinctRequests;
    TailMembers([head] + rest);
    assert ([head] + rest)[1..] == rest;
  }

  lemma OneIsDistinct(sub: SubRequest)
    ensures DistinctRequests([sub])
  {
  }

  /** With the first apart from the others, the ids are distinct when those of the others are. */
  lemma TailMembers(list: seq<SubRequest>)
    requires list != []
    ensures forall s :: s in list <==> s == list[0] || s in list[1..]
    ensures DistinctRequests(list) <==>
              DistinctRequests(list[1..]) && forall s :: s in list[1..] ==> s.id != list[0].id
  {
    var rest := list[1..];
    if DistinctRequests(rest) && forall s :: s in rest ==> s.id != list[0].id {
      forall i, j | 0 <= i < j < |list| ensures list[i].id != list[j].id {
        assert list[j] == rest[j - 1] && rest[j - 1] in rest;
        if 0 < i { assert list[i] == rest[i - 1]; }
      }
    }
  }

  /** What is filed is, under each id, the last sub-request submitted. */
  lemma {:induction false} FiledIs(submitted: seq<SubRequest>)
    ensures DistinctRequests(Filed(submitted))
    ensures forall s :: s in Filed(submitted) <==> LastUnder(submitted, s.id) == Some(s)
  {
    if submitted != [] {
      var front, last := submitted[..|submitted| - 1], submitted[|submitted| - 1];
      FiledIs(front);
      ReplacedIs(Filed(front), last);
    }
  }

  lemma {:induction false} FiledAreSubmitted(submitted: seq<SubRequest>)
    ensures forall i :: 0 <= i < |Filed(submitted)| ==> Filed(submitted)[i] in submitted
  {
    if submitted != [] {
      var front, last := submitted[..|submitted| - 1], submitted[|submitted| - 1];
      FiledAreSubmitted(front);
      ReplacedMembers(Filed(front), last);
      var filed := Filed(submitted);
      forall i | 0 <= i < |filed| ensures filed[i] in submitted {
        assert filed[i] in filed;
        assert filed[i] == last || filed[i] in Filed(front);
        assert submitted == front + [last];
      }
    }
  }

  lemma {:induction false} LastUnderIs(submitted: seq<SubRequest>, id: string)
    ensures LastUnder(submitted, id).Some? <==> id in IdsOf(submitted)
    ensures var last := LastUnder(submitted, id);
            last.Some? ==> last.value in submitted && last.value.id == id
  {
    if submitted != [] {
      var front, last := submitted[..|submitted| - 1], submitted[|submitted| - 1];
      LastUnderIs(front, id);
      assert IdsOf(submitted) == IdsOf(front) + [last.id];
    }
  }

  /** The sub-request is submitted at m, and no later one has its id. */
  ghost predicate IsLast(submitted: seq<SubRequest>, x: SubRequest, m: int) {
    0 <= m < |submitted| && submitted[m] == x && forall j :: m < j < |submitted| ==> submitted[j].id != x.id
  }

  /** A sub-request is filed exactly when no later one has its id. */
  lemma {:induction false} FiledIffLast(submitted: seq<SubRequest>, x: SubRequest)
    ensures LastUnder(submitted, x.id) == Some(x) <==> exists m :: IsLast(submitted, x, m)
    ensures x in Filed(submitted) <==> exists m :: IsLast(submitted, x, m)
  {
    hide Filed;
    FiledIs(submitted);
    if submitted != [] {
      var n := |submitted| - 1;
      FiledIffLast(submitted[..n], x);
      if submitted[n].id == x.id {
        assert submitted[n] == x ==> IsLast(submitted, x, n);
      } else {
        forall m ensures IsLast(submitted[..n], x, m) <==> IsLast(submitted, x, m) { }
      }
    }
  }

  /** What the response does to one participant, given the errors thrown. */
  ghost predicate SubSettled(
    sub: SubRequest, thrown: Entries<RpcError>, body: ResponseBody, headers: string -> Option<Received>,
    skip: Option<string>, wasResolved: bool, wasValue: Received, wasError: Option<RpcError>)
    reads sub
  {
    var resp := ResponseOf(body, headers, sub.id);
    if Find(thrown, sub.id).Some? then
      sub.isResolved && sub.resolvedValue == wasValue && sub.error == Find(thrown, sub.id)
    else if Some(sub.id) == skip then
      sub.isResolved == wasResolved && sub.resolvedValue == wasValue && sub.error == wasError
    else if resp.Failed? then sub.isResolved && sub.resolvedValue == wasValue && sub.error == Some(resp.error)
    else sub.isResolved && sub.resolvedValue == resp && sub.error == wasError
  }

  /** One participant and its own response: an error is kept apart from a value. */
  ghost predicate SubResolved(
    sub: SubRequest, leftAlone: bool, resp: Received, wasResolved: bool, wasValue: Received,
    wasError: Option<RpcError>)
    reads sub
  {
    && sub.isResolved == (!leftAlone || wasResolved)
    && sub.error == (if !leftAlone && resp.Failed? then Some(resp.error) else wasError)
    && sub.resolvedValue == (if leftAlone || resp.Failed? then wasValue else resp)
  }

  method Resolve(sub: SubRequest, resp: Received)
    modifies sub
    ensures SubResolved(sub, false, resp, old(sub.isResolved), old(sub.resolvedValue), old(sub.error))
  {
    sub.isResolved := true;
    if resp.Failed? { sub.error := Some(resp.error); } else { sub.resolvedValue := resp; }
  }

  class ClientRequest {
    var subRequestList: seq<SubRequest>
    var errors: Entries<RpcError>
    /** ids whose error nobody declared */
    var thrownErrorIds: set<string>

    ghost predicate Valid()
      reads this
    {
      && DistinctRequests(subRequestList)
      && forall s :: s in subRequestList ==> s as object != this
    }

    constructor ()
      ensures Valid() && subRequestList == [] && errors == [] && thrownErrorIds == {}
    {
      subRequestList, errors, thrownErrorIds := [], [], {};
    }

    /** Files a sub-request under its id, in the place of an earlier one with that id. A resolved one throws. */
    method AddSubRequest(sub: SubRequest) returns (threw: bool)
      requires Valid()
      modifies this`subRequestList
      ensures Valid() && threw == sub.isResolved
      ensures subRequestList == if threw then old(subRequestList) else Replaced(old(subRequestList), sub)
    {
      if sub.isResolved { return true; }
      ReplacedIs(subRequestList, sub);
      ReplacedInPlace(subRequestList, sub);
      var at := IndexOf(subRequestList, sub.id);
      subRequestList := if at < |subRequestList| then subRequestList[at := sub] else subRequestList + [sub];
      threw := false;
    }

    method SetFatalError(id: string, error: RpcError)
      modifies this`errors, this`thrownErrorIds
      ensures errors == Set(old(errors), id, error) && thrownErrorIds == old(thrownErrorIds) + {id}
    {
      errors := Set(errors, id, error);
      thrownErrorIds := thrownErrorIds + {id};
    }

    /** Adds the prefilled middleFns the routes depend on and the caller did not send. A route nothing is known
        about is an error of its own, when errors are being collected. */
    method RestorePrefilledMiddleFns(
      routes: seq<string>, known: map<string, seq<string>>, prefilled: set<string>, collect: bool)
      requires Valid()
      modifies this`subRequestList, this`errors, this`thrownErrorIds
      ensures Valid()
      ensures old(subRequestList) <= subRequestList
      ensures forall i :: |old(subRequestList)| <= i < |subRequestList| ==>
                fresh(subRequestList[i]) && IsUntouched(subRequestList[i])
      ensures forall id :: id in IdsOf(subRequestList) <==>
                id in old(IdsOf(subRequestList)) || ToRestore(routes, routes, known, prefilled, id)
      ensures errors == if collect then AfterUnknown(old(errors), routes, known) else old(errors)
      ensures thrownErrorIds == old(thrownErrorIds) + if collect then (set r | r in routes && r !in known) else {}
    {
      hide IdsOf, Set;
      NothingToRestore(routes, known, prefilled);
      assert routes[..|routes|] == routes;
      for k := 0 to |routes|
        invariant Valid() && old(subRequestList) <= subRequestList
        invariant forall i :: |old(subRequestList)| <= i < |subRequestList| ==>
                    fresh(subRequestList[i]) && IsUntouched(subRequestList[i])
        invariant forall id :: id in IdsOf(subRequestList) <==>
                    id in old(IdsOf(subRequestList)) || ToRestore(routes[..k], routes, known, prefilled, id)
        invariant errors == if collect then AfterUnknown(old(errors), routes[..k], known) else old(errors)
        invariant thrownErrorIds ==
                    old(thrownErrorIds) + if collect then (set r | r in routes[..k] && r !in known) else {}
      {
        var route := routes[k];
        ToRestoreStep(routes, k, known, prefilled);
        assert routes[..k + 1][..k] == routes[..k];
        if route !in known {
          if collect { SetFatalError(route, RpcError("route-metadata-not-found", None, 0)); }
          continue;
        }
        RestoreMissing(known[route], routes, prefilled);
      }
    }

    /** The middleFns of one route. */
    method RestoreMissing(ids: seq<string>, routes: seq<string>, prefilled: set<string>)
      requires Valid()
      modifies this`subRequestList
      ensures Valid()
      ensures old(subRequestList) <= subRequestList
      ensures forall i :: |old(subRequestList)| <= i < |subRequestList| ==>
                fresh(subRequestList[i]) && IsUntouched(subRequestList[i])
      ensures forall id :: id in IdsOf(subRequestList) <==>
                id in old(IdsOf(subRequestList)) || (id in ids && id != "" && id !in routes && id in prefilled)
    {
      hide IdsOf;
      for j := 0 to |ids|
        invariant Valid() && old(subRequestList) <= subRequestList
        invariant forall i :: |old(subRequestList)| <= i < |subRequestList| ==>
                    fresh(subRequestList[i]) && IsUntouched(subRequestList[i])
        invariant forall id :: id in IdsOf(subRequestList) <==>
                    id in old(IdsOf(subRequestList)) || (id in ids[..j] && id != "" && id !in routes && id in prefilled)
      {
        var id := ids[j];
        assert ids[..j + 1] == ids[..j] + [id];
        if id == "" || id in routes { continue; }
        if IndexOf(subRequestList, id) < |subRequestList| { continue; }
        if id in prefilled {
          var clone := new SubRequest(id);
          OneMoreId(subRequestList, clone);
          subRequestList := subRequestList + [clone];
        }
      }
      assert ids[..|ids|] == ids;
    }

    /** A platform error is recorded once, under the request's own id, and settles every participant. */
    method HandlePlatformError(body: ResponseBody) returns (found: bool)
      requires Valid()
      modifies this`errors, this`thrownErrorIds, set s | s in subRequestList
      ensures Valid()
      ensures found == body.platform.Some?
      ensures !found ==> unchanged(this) && forall s :: s in subRequestList ==> unchanged(s)
      ensures found ==>
                && errors == Set(old(errors), CLIENT_REQUEST_ERROR_ID, body.platform.value)
                && thrownErrorIds == old(thrownErrorIds) + {CLIENT_REQUEST_ERROR_ID}
                && forall s :: s in subRequestList ==>
                     s.isResolved && s.resolvedValue == old(s.resolvedValue) && s.error == old(s.error)
    {
      if body.platform.None? { return false; }
      for i := 0 to |subRequestList|
        invariant Valid() && errors == old(errors) && thrownErrorIds == old(thrownErrorIds)
        invariant forall j :: 0 <= j < i ==> subRequestList[j].isResolved
        invariant forall s :: s in subRequestList ==> s.resolvedValue == old(s.resolvedValue) && s.error == old(s.error)
      {
        subRequestList[i].isResolved := true;
      }
      SetFatalError(CLIENT_REQUEST_ERROR_ID, body.platform.value);
      found := true;
    }

    method SettleThrown(id: string, error: RpcError)
      requires Valid()
      modifies set s | s in subRequestList
      ensures Valid()
      ensures forall s :: s in subRequestList ==>
                && s.resolvedValue == old(s.resolvedValue)
                && s.isResolved == (s.id == id || old(s.isResolved))
                && s.error == (if s.id == id then Some(error) else old(s.error))
    {
      hide IdsOf;
      var at := IndexOf(subRequestList, id);
      if at < |subRequestList| {
        subRequestList[at].isResolved := true;
        subRequestList[at].error := Some(error);
      }
    }

    /** Thrown errors settle their participants first; a validation error is thrown but counts as declared. */
    method ApplyThrown(thrown: Entries<RpcError>)
      requires Valid() && UniqueNames(thrown)
      modifies this`errors, this`thrownErrorIds, set s | s in subRequestList
      ensures Valid() && errors == AfterThrown(old(errors), thrown)
      ensures thrownErrorIds == old(thrownErrorIds) + UndeclaredIds(thrown)
      ensures forall s :: s in subRequestList ==> s.resolvedValue == old(s.resolvedValue)
      ensures forall s :: s in subRequestList ==>
                if Find(thrown, s.id).Some? then s.isResolved && s.error == Find(thrown, s.id)
                else s.isResolved == old(s.isResolved) && s.error == old(s.error)
    {
      hide Find, UndeclaredIds, UniqueNames, Set, IdsOf;
      assert thrown[..|thrown|] == thrown;
      NothingThrown(thrown, subRequestList);
      for i := 0 to |thrown|
        invariant Valid() && errors == AfterThrown(old(errors), thrown[..i])
        invariant thrownErrorIds == old(thrownErrorIds) + UndeclaredIds(thrown[..i])
        invariant forall s :: s in subRequestList ==> s.resolvedValue == old(s.resolvedValue)
        invariant forall s :: s in subRequestList ==>
                    if Find(thrown[..i], s.id).Some? then s.isResolved && s.error == Find(thrown[..i], s.id)
                    else s.isResolved == old(s.isResolved) && s.error == old(s.error)
      {
        var id, error := thrown[i].0, thrown[i].1;
        assert thrown[..i + 1][..i] == thrown[..i];
        ThrownStep(thrown, i);
        SettleThrown(id, error);
        errors := Set(errors, id, error);
        if error.errorType != VALIDATION_ERROR { thrownErrorIds := thrownErrorIds + {id}; }
      }
    }

    /** Settles the participants that nothing was thrown for. */
    method ResolveParticipants(body: ResponseBody, headers: string -> Option<Received>, skip: Option<string>)
      requires Valid()
      modifies this`errors, set s | s in subRequestList
      ensures Valid() && errors == AfterParticipants(old(errors), IdsOf(subRequestList), body, headers, skip)
      ensures forall s :: s in subRequestList ==>
                SubResolved(s, Some(s.id) == skip || Find(old(errors), s.id).Some?, ResponseOf(body, headers, s.id),
                  old(s.isResolved), old(s.resolvedValue), old(s.error))
    {
      hide ResponseOf, Find, Set, AfterParticipants;
      ghost var ids := IdsOf(subRequestList);
      assert ids[..|subRequestList|] == ids;
      NoParticipants(old(errors), ids, body, headers, skip);
      for i := 0 to |subRequestList|
        invariant Valid() && errors == AfterParticipants(old(errors), ids[..i], body, headers, skip)
        invariant forall j :: i <= j < |subRequestList| ==> unchanged(subRequestList[j])
        invariant forall j :: 0 <= j < i ==>
                    var s := subRequestList[j];
                    SubResolved(s, Some(s.id) == skip || Find(old(errors), s.id).Some?, ResponseOf(body, headers, s.id),
                      old(s.isResolved), old(s.resolvedValue), old(s.error))
      {
        var sub := subRequestList[i];
        ParticipantsStep(old(errors), ids, i, body, headers, skip);
        AfterParticipantsFinds(old(errors), ids[..i], body, headers, skip, sub.id);
        if Some(sub.id) == skip || Find(errors, sub.id).Some? { continue; }
        var resp := ResponseOf(body, headers, sub.id);
        Resolve(sub, resp);
        if resp.Failed? { errors := Set(errors, sub.id, resp.error); }
      }
    }

    /** Errors for ids nobody asked for are fatal. */
    method CollectUnasked(entries: Entries<Received>)
      requires Valid()
      modifies this`errors, this`thrownErrorIds
      ensures errors == AfterUnasked(old(errors), IdsOf(subRequestList), entries)
      ensures thrownErrorIds == old(thrownErrorIds) + UnaskedIds(IdsOf(subRequestList), entries)
    {
      hide UnaskedIds;
      ghost var ids := IdsOf(subRequestList);
      assert entries[..|entries|] == entries;
      NothingUnasked(ids, entries);
      for i := 0 to |entries|
        invariant errors == AfterUnasked(old(errors), ids, entries[..i])
        invariant thrownErrorIds == old(thrownErrorIds) + UnaskedIds(ids, entries[..i])
      {
        assert entries[..i + 1][..i] == entries[..i];
        UnaskedStep(ids, entries, i);
        var at := IndexOf(subRequestList, entries[i].0);
        if at == |subRequestList| && entries[i].1.Failed? { SetFatalError(entries[i].0, entries[i].1.error); }
      }
    }

    /** Sorts a response: values to their participants, every error to the errors table, the undeclared ones marked. */
    method ResolveSubRequests(body: ResponseBody, headers: string -> Option<Received>, skip: Option<string>)
      requires Valid() && errors == [] && UniqueNames(body.thrown)
      modifies this`errors, this`thrownErrorIds, set s | s in subRequestList
      ensures Valid() && errors == CollectedErrors(IdsOf(subRequestList), body, headers, skip)
      ensures thrownErrorIds ==
          old(thrownErrorIds) + UndeclaredIds(body.thrown) + UnaskedIds(IdsOf(subRequestList), body.entries)
      ensures forall s :: s in subRequestList ==>
                SubSettled(s, body.thrown, body, headers, skip, old(s.isResolved), old(s.resolvedValue), old(s.error))
    {
      hide ResponseOf, Find, AfterThrown, AfterParticipants, AfterUnasked, UndeclaredIds, UnaskedIds, UniqueNames;
      ApplyThrown(body.thrown);
      forall s | s in subRequestList ensures Find(errors, s.id) == Find(body.thrown, s.id) {
        AfterThrownFinds([], body.thrown, s.id);
        FindNothing<RpcError>(s.id);
      }
      ResolveParticipants(body, headers, skip);
      CollectUnasked(body.entries);
    }
  }

  predicate IsUntouched(s: SubRequest)
    reads s
  {
    !s.isResolved && s.resolvedValue == Undefined && s.error == None
  }

  /** A prefilled middleFn that some known route among `some` depends on and that is not a route itself. */
  ghost predicate ToRestore(
    some: seq<string>, routes: seq<string>, known: map<string, seq<string>>, prefilled: set<string>, id: string)
  {
    id != "" && id !in routes && id in prefilled && exists r :: r in some && r in known && id in known[r]
  }

  function AfterUnknown(
    errors: Entries<RpcError>, routes: seq<string>, known: map<string, seq<string>>): Entries<RpcError>
  {
    if routes == [] then errors
    else
      var before, last := AfterUnknown(errors, routes[..|routes| - 1], known), routes[|routes| - 1];
      if last in known then before else Set(before, last, RpcError("route-metadata-not-found", None, 0))
  }

  lemma NothingToRestore(routes: seq<string>, known: map<string, seq<string>>, prefilled: set<string>)
    ensures forall id :: !ToRestore(routes[..0], routes, known, prefilled, id)
  {
  }

  lemma ToRestoreStep(routes: seq<string>, k: nat, known: map<string, seq<string>>, prefilled: set<string>)
    requires k < |routes|
    ensures forall id :: ToRestore(routes[..k + 1], routes, known, prefilled, id) <==>
              ToRestore(routes[..k], routes, known, prefilled, id)
              || (routes[k] in known && id in known[routes[k]] && id != "" && id !in routes && id in prefilled)
    ensures forall r :: r in routes[..k + 1] <==> r in routes[..k] || r == routes[k]
  {
    assert routes[..k + 1] == routes[..k] + [routes[k]];
    assert forall r :: r in routes[..k + 1] <==> r in routes[..k] || r == routes[k];
  }

  lemma OneMoreId(subs: seq<SubRequest>, s: SubRequest)
    ensures forall id :: id in IdsOf(subs + [s]) <==> id in IdsOf(subs) || id == s.id
    ensures forall t :: t in subs ==> t.id in IdsOf(subs)
  {
    assert IdsOf(subs + [s]) == IdsOf(subs) + [s.id];
    forall t | t in subs ensures t.id in IdsOf(subs) {
      var i :| 0 <= i < |subs| && subs[i] == t;
      assert IdsOf(subs)[i] == t.id;
    }
  }

  /** The position of a participant, or the length when there is none. */
  function IndexOf(subs: seq<SubRequest>, id: string): (at: nat)
    ensures at <= |subs|
    ensures at < |subs| ==> subs[at].id == id
    ensures at == |subs| ==> forall s :: s in subs ==> s.id != id
    ensures (at < |subs|) == (id in IdsOf(subs))
  {
    if subs == [] then 0
    else if subs[0].id == id then (assert IdsOf(subs)[0] == id; 0)
    else
      assert IdsOf(subs) == [subs[0].id] + IdsOf(subs[1..]);
      1 + IndexOf(subs[1..], id)
  }

  lemma IndexOfTail(list: seq<SubRequest>, id: string)
    requires list != [] && list[0].id != id
    ensures IndexOf(list, id) == 1 + IndexOf(list[1..], id)
  {
    hide IdsOf;
  }

  lemma {:induction false} ReplacedInPlace(list: seq<SubRequest>, sub: SubRequest)
    ensures var at := IndexOf(list, sub.id);
            Replaced(list, sub) == if at < |list| then list[at := sub] else list + [sub]
  {
    hide IdsOf;
    if list != [] && list[0].id != sub.id {
      ReplacedInPlace(list[1..], sub);
      IndexOfTail(list, sub.id);
      hide IndexOf, Replaced;
      var at := IndexOf(list[1..], sub.id);
      assert at < |list| - 1 ==> [list[0]] + list[1..][at := sub] == list[1 + at := sub];
      assert [list[0]] + (list[1..] + [sub]) == list + [sub];
    }
  }

  lemma NothingThrown(thrown: Entries<RpcError>, subs: seq<SubRequest>)
    ensures AfterThrown([], []) == [] && UndeclaredIds(thrown[..0]) == {}
    ensures forall s :: s in subs ==> Find(thrown[..0], s.id) == None
  {
  }

  lemma ThrownStep(thrown: Entries<RpcError>, i: nat)
    requires i < |thrown| && UniqueNames(thrown)
    ensures UndeclaredIds(thrown[..i + 1]) ==
            UndeclaredIds(thrown[..i]) + (if thrown[i].1.errorType != VALIDATION_ERROR then {thrown[i].0} else {})
    ensures forall k :: Find(thrown[..i + 1], k) == if k == thrown[i].0 then Some(thrown[i].1) else Find(thrown[..i], k)
  {
    var front, last := thrown[..i], thrown[i];
    assert thrown[..i + 1] == front + [last];
    assert forall t :: t in front + [last] <==> t in front || t == last;
    forall k ensures Find(front + [last], k) == if k == last.0 then Some(last.1) else Find(front, k) {
      FindAppended(front, last, k);
    }
  }

  lemma NoParticipants(
    errors: Entries<RpcError>, ids: seq<string>, body: ResponseBody, headers: string -> Option<Received>,
    skip: Option<string>)
    ensures AfterParticipants(errors, ids[..0], body, headers, skip) == errors
  {
  }

  lemma ParticipantsStep(
    errors: Entries<RpcError>, ids: seq<string>, i: nat, body: ResponseBody, headers: string -> Option<Received>,
    skip: Option<string>)
    requires i < |ids|
    ensures AfterParticipants(errors, ids[..i + 1], body, headers, skip) ==
            AfterOne(AfterParticipants(errors, ids[..i], body, headers, skip), ids[i], body, headers, skip)
  {
    hide AfterOne;
    assert ids[..i + 1][..i] == ids[..i];
  }

  lemma NothingUnasked(ids: seq<string>, entries: Entries<Received>)
    ensures UnaskedIds(ids, entries[..0]) == {}
  {
  }

  lemma UnaskedStep(ids: seq<string>, entries: Entries<Received>, i: nat)
    requires i < |entries|
    ensures UnaskedIds(ids, entries[..i + 1]) ==
        UnaskedIds(ids, entries[..i]) + (if Unasked(ids, entries[i]) then {entries[i].0} else {})
  {
    var front, last := entries[..i], entries[i];
    assert entries[..i + 1] == front + [last];
    assert forall e :: e in front + [last] <==> e in front || e == last;
  }

  // ---------- The result tuple ----------

  /** A participant as the result is built from it. */
  datatype Sub = Sub(id: string, value: Received)

  datatype Routes = Single(sub: Sub) | Workflow(subs: seq<Sub>) | NoRoute

  /** A slot for the routes: nothing, one route's, or one place per route of a workflow. */
  datatype Slot<T> = Nothing | One(item: T) | Many(items: seq<T>)

  datatype CallResult = CallResult(
    routeResult: Slot<Received>, routeError: Slot<Option<RpcError>>, fatal: Option<RpcError>,
    middleFnResults: Entries<Received>, middleFnErrors: Entries<RpcError>)

  function SubIds(subs: seq<Sub>): (ids: seq<string>)
    ensures |ids| == |subs|
  {
    seq(|subs|, i requires 0 <= i < |subs| => subs[i].id)
  }

  function RouteIds(routes: Routes): seq<string> {
    match routes case Single(sub) => [sub.id] case Workflow(subs) => SubIds(subs) case NoRoute => []
  }

  function MiddleIds(middleFns: Entries<Sub>): (ids: seq<string>)
    ensures |ids| == |middleFns|
  {
    seq(|middleFns|, i requires 0 <= i < |middleFns| => middleFns[i].1.id)
  }

  /** An error its participant declared. */
  function Declared(errors: Entries<RpcError>, thrownIds: set<string>, id: string): Option<RpcError> {
    if id in thrownIds then None else Find(errors, id)
  }

  function DeclaredOf(errors: Entries<RpcError>, thrownIds: set<string>, subs: seq<Sub>): (r: seq<Option<RpcError>>)
    ensures |r| == |subs|
  {
    seq(|subs|, i requires 0 <= i < |subs| => Declared(errors, thrownIds, subs[i].id))
  }

  function ValuesOf(subs: seq<Sub>): (r: seq<Received>)
    ensures |r| == |subs|
  {
    seq(|subs|, i requires 0 <= i < |subs| => subs[i].value)
  }

  /** The first id, in order, whose error was thrown. */
  function FirstThrown(errors: Entries<RpcError>, thrownIds: set<string>, ids: seq<string>): Option<RpcError> {
    if ids == [] then None
    else if ids[0] in thrownIds && Find(errors, ids[0]).Some? then Find(errors, ids[0])
    else FirstThrown(errors, thrownIds, ids[1..])
  }

  /** The first error, in order of arrival, that belongs to no participant. */
  function FirstUnclaimed(errors: Entries<RpcError>, processed: set<string>): Option<RpcError> {
    if errors == [] then None
    else if errors[0].0 !in processed then Some(errors[0].1)
    else FirstUnclaimed(errors[1..], processed)
  }

  function Fatal(
    errors: Entries<RpcError>, thrownIds: set<string>, middleIds: seq<string>, routeIds: seq<string>): Option<RpcError>
  {
    var first, second := FirstThrown(errors, thrownIds, middleIds), FirstThrown(errors, thrownIds, routeIds);
    if first.Some? then first else if second.Some? then second
      else FirstUnclaimed(errors, Elements(middleIds) + Elements(routeIds))
  }

  function NamedValues(middleFns: Entries<Sub>): Entries<Received> {
    if middleFns == [] then []
    else
      var before, last := NamedValues(middleFns[..|middleFns| - 1]), middleFns[|middleFns| - 1];
      if last.1.value.Undefined? then before else Set(before, last.0, last.1.value)
  }

  function NamedErrors(errors: Entries<RpcError>, thrownIds: set<string>, middleFns: Entries<Sub>): Entries<RpcError> {
    if middleFns == [] then []
    else
      var before, last := NamedErrors(errors, thrownIds, middleFns[..|middleFns| - 1]), middleFns[|middleFns| - 1];
      var declared := Declared(errors, thrownIds, last.1.id);
      if declared.None? then before else Set(before, last.0, declared.value)
  }

  ghost predicate NoValue(values: seq<Received>) {
    forall v :: v in values ==> v.Undefined?
  }

  ghost predicate NoError(errors: seq<Option<RpcError>>) {
    forall e :: e in errors ==> e.None?
  }

  lemma PartsStep(values: seq<Received>, v: Received, errors: seq<Option<RpcError>>, e: Option<RpcError>)
    ensures NoValue(values + [v]) <==> NoValue(values) && v.Undefined?
    ensures NoError(errors + [e]) <==> NoError(errors) && e.None?
  {
    assert forall x :: x in values + [v] <==> x in values || x == v;
    assert forall x :: x in errors + [e] <==> x in errors || x == e;
  }

  /** What the route slots hold: each route's value and declared error at its own place. */
  ghost predicate RouteParts(
    routes: Routes, errors: Entries<RpcError>, thrownIds: set<string>, result: Slot<Received>,
    error: Slot<Option<RpcError>>)
  {
    match routes
    case NoRoute => result.Nothing? && error.Nothing?
    case Single(sub) => result == One(sub.value) && error == One(Declared(errors, thrownIds, sub.id))
    case Workflow(subs) =>
      && (result == if NoValue(ValuesOf(subs)) then Nothing else Many(ValuesOf(subs)))
      && (error == if NoError(DeclaredOf(errors, thrownIds, subs)) then Nothing
           else Many(DeclaredOf(errors, thrownIds, subs)))
  }

  /** The route slots: the single route's, or one place per workflow route unless all are undefined. */
  method BuildRouteParts(routes: Routes, errors: Entries<RpcError>, thrownIds: set<string>)
    returns (result: Slot<Received>, error: Slot<Option<RpcError>>)
    ensures RouteParts(routes, errors, thrownIds, result, error)
  {
    match routes
    case NoRoute => return Nothing, Nothing;
    case Single(sub) => return One(sub.value), One(Declared(errors, thrownIds, sub.id));
    case Workflow(subs) =>
      var values: seq<Received>, declared: seq<Option<RpcError>> := [], [];
      var anyValue, anyError := false, false;
      for i := 0 to |subs|
        invariant values == ValuesOf(subs)[..i] && declared == DeclaredOf(errors, thrownIds, subs)[..i]
        invariant anyValue == !NoValue(values) && anyError == !NoError(declared)
      {
        var e := Declared(errors, thrownIds, subs[i].id);
        PartsStep(values, subs[i].value, declared, e);
        values, declared := values + [subs[i].value], declared + [e];
        anyValue := anyValue || !subs[i].value.Undefined?;
        anyError := anyError || e.Some?;
      }
      result := if anyValue then Many(values) else Nothing;
      error := if anyError then Many(declared) else Nothing;
  }

  /** One pass over the middleFns: results and declared errors under their names, the first thrown one apart. */
  method BuildMiddleFnParts(middleFns: Entries<Sub>, errors: Entries<RpcError>, thrownIds: set<string>)
    returns (values: Entries<Received>, named: Entries<RpcError>, fatal: Option<RpcError>)
    ensures values == NamedValues(middleFns) && named == NamedErrors(errors, thrownIds, middleFns)
    ensures fatal == FirstThrown(errors, thrownIds, MiddleIds(middleFns))
  {
    hide Find, Set;
    values, named, fatal := [], [], None;
    ghost var ids := MiddleIds(middleFns);
    for i := 0 to |middleFns|
      invariant values == NamedValues(middleFns[..i]) && named == NamedErrors(errors, thrownIds, middleFns[..i])
      invariant fatal == FirstThrown(errors, thrownIds, ids[..i])
    {
      var name, sub := middleFns[i].0, middleFns[i].1;
      assert middleFns[..i + 1][..i] == middleFns[..i];
      FirstThrownStep(errors, thrownIds, ids[..i], sub.id);
      assert ids[..i + 1] == ids[..i] + [sub.id];
      if !sub.value.Undefined? { values := Set(values, name, sub.value); }
      var error := Find(errors, sub.id);
      if error.None? { continue; }
      if sub.id in thrownIds {
        if fatal.None? { fatal := error; }
      } else {
        named := Set(named, name, error.value);
      }
    }
    assert middleFns[..|middleFns|] == middleFns && ids[..|middleFns|] == ids;
  }

  lemma {:induction false} FirstThrownStep(
    errors: Entries<RpcError>, thrownIds: set<string>, ids: seq<string>, id: string)
    ensures FirstThrown(errors, thrownIds, ids + [id]) ==
            if FirstThrown(errors, thrownIds, ids).Some? then FirstThrown(errors, thrownIds, ids)
            else if id in thrownIds then Find(errors, id) else None
  {
    hide Find;
    if ids == [] {
      assert ids + [id] == [id] && [id][1..] == [];
    } else {
      assert (ids + [id])[1..] == ids[1..] + [id];
      FirstThrownStep(errors, thrownIds, ids[1..], id);
    }
  }

  /** The result tuple of a call. No errors at all is the empty table. */
  method BuildResult(
    routes: Routes, middleFns: Entries<Sub>, errors: Entries<RpcError>, thrownIds: set<string>) returns (r: CallResult)
    ensures RouteParts(routes, errors, thrownIds, r.routeResult, r.routeError)
    ensures r.fatal == Fatal(errors, thrownIds, MiddleIds(middleFns), RouteIds(routes))
    ensures r.middleFnResults == NamedValues(middleFns) && r.middleFnErrors == NamedErrors(errors, thrownIds, middleFns)
  {
    hide Find, Set, NamedValues, NamedErrors, ValuesOf, DeclaredOf, Declared;
    var result, error := BuildRouteParts(routes, errors, thrownIds);
    var values, named, fatal := BuildMiddleFnParts(middleFns, errors, thrownIds);
    var routeIds := RouteIds(routes);
    if fatal.None? { fatal := FirstThrownOf(errors, thrownIds, routeIds); }
    if fatal.None? { fatal := FirstUnclaimedOf(errors, Elements(MiddleIds(middleFns)) + Elements(routeIds)); }
    r := CallResult(result, error, fatal, values, named);
  }

  method FirstThrownOf(
    errors: Entries<RpcError>, thrownIds: set<string>, ids: seq<string>) returns (first: Option<RpcError>)
    ensures first == FirstThrown(errors, thrownIds, ids)
  {
    for i := 0 to |ids|
      invariant FirstThrown(errors, thrownIds, ids) == FirstThrown(errors, thrownIds, ids[i..])
    {
      if Find(errors, ids[i]).Some? && ids[i] in thrownIds { return Find(errors, ids[i]); }
      assert ids[i..][1..] == ids[i + 1..];
    }
    first := None;
  }

  method FirstUnclaimedOf(errors: Entries<RpcError>, processed: set<string>) returns (first: Option<RpcError>)
    ensures first == FirstUnclaimed(errors, processed)
  {
    for i := 0 to |errors|
      invariant FirstUnclaimed(errors, processed) == FirstUnclaimed(errors[i..], processed)
    {
      if errors[i].0 !in processed { return Some(errors[i].1); }
      assert errors[i..][1..] == errors[i + 1..];
    }
    first := None;
  }

  // ---------- No error is lost, none crosses a slot ----------

  lemma {:induction false} FirstThrownIff(errors: Entries<RpcError>, thrownIds: set<string>, ids: seq<string>)
    ensures FirstThrown(errors, thrownIds, ids).Some? <==>
              exists id :: id in ids && id in thrownIds && Find(errors, id).Some?
  {
    hide Find;
    if ids != [] {
      FirstThrownIff(errors, thrownIds, ids[1..]);
      assert forall id :: id in ids <==> id == ids[0] || id in ids[1..];
    }
  }

  lemma {:induction false} FirstUnclaimedIff(errors: Entries<RpcError>, processed: set<string>)
    ensures FirstUnclaimed(errors, processed).Some? <==> exists id :: id !in processed && Find(errors, id).Some?
  {
    if errors != [] {
      FirstUnclaimedIff(errors[1..], processed);
      if errors[0].0 !in processed {
        assert Find(errors, errors[0].0).Some?;
      } else {
        assert forall id :: id !in processed ==> Find(errors, id) == Find(errors[1..], id);
      }
    }
  }

  ghost predicate HasFatal(errors: Entries<RpcError>, thrownIds: set<string>, participants: set<string>) {
    exists id :: Find(errors, id).Some? && (id in thrownIds || id !in participants)
  }

  /** The fatal slot is filled exactly when some error was thrown by a participant or belongs to none. */
  lemma FatalIff(errors: Entries<RpcError>, thrownIds: set<string>, middleIds: seq<string>, routeIds: seq<string>)
    ensures Fatal(errors, thrownIds, middleIds, routeIds).Some? <==>
              HasFatal(errors, thrownIds, Elements(middleIds) + Elements(routeIds))
  {
    hide Find, FirstThrown, FirstUnclaimed;
    FirstThrownIff(errors, thrownIds, middleIds);
    FirstThrownIff(errors, thrownIds, routeIds);
    var participants := Elements(middleIds) + Elements(routeIds);
    FirstUnclaimedIff(errors, participants);
    if HasFatal(errors, thrownIds, participants) {
      var id :| Find(errors, id).Some? && (id in thrownIds || id !in participants);
      assert id in participants ==> id in middleIds || id in routeIds;
    }
    if FirstThrown(errors, thrownIds, middleIds).Some? {
      var id :| id in middleIds && id in thrownIds && Find(errors, id).Some?;
    } else if FirstThrown(errors, thrownIds, routeIds).Some? {
      var id :| id in routeIds && id in thrownIds && Find(errors, id).Some?;
    }
  }

  ghost predicate FirstAt(errors: Entries<RpcError>, thrownIds: set<string>, ids: seq<string>, i: int) {
    && 0 <= i < |ids| && ids[i] in thrownIds && Find(errors, ids[i]).Some?
    && forall j :: 0 <= j < i ==> !(ids[j] in thrownIds && Find(errors, ids[j]).Some?)
  }

  lemma {:induction false} FirstThrownIsFirst(errors: Entries<RpcError>, thrownIds: set<string>, ids: seq<string>)
    ensures var first := FirstThrown(errors, thrownIds, ids);
            if first.Some? then exists i :: FirstAt(errors, thrownIds, ids, i) && first == Find(errors, ids[i])
            else forall id :: id in ids && id in thrownIds ==> Find(errors, id).None?
  {
    hide Find;
    if ids != [] {
      if ids[0] in thrownIds && Find(errors, ids[0]).Some? {
        assert FirstAt(errors, thrownIds, ids, 0);
      } else {
        var rest := ids[1..];
        FirstThrownIsFirst(errors, thrownIds, rest);
        if FirstThrown(errors, thrownIds, rest).Some? {
          var i :| FirstAt(errors, thrownIds, rest, i) && FirstThrown(errors, thrownIds, rest) == Find(errors, rest[i]);
          assert FirstAt(errors, thrownIds, ids, i + 1);
        }
      }
    }
  }

  lemma {:induction false} FirstThrownOfBoth(
    errors: Entries<RpcError>, thrownIds: set<string>, a: seq<string>, b: seq<string>)
    ensures FirstThrown(errors, thrownIds, a + b) ==
            if FirstThrown(errors, thrownIds, a).Some? then FirstThrown(errors, thrownIds, a)
              else FirstThrown(errors, thrownIds, b)
  {
    hide Find;
    if a == [] {
      assert a + b == b;
    } else {
      assert (a + b)[1..] == a[1..] + b;
      FirstThrownOfBoth(errors, thrownIds, a[1..], b);
    }
  }

  /** The first error, in order of arrival, under an id that is not claimed. */
  ghost predicate FirstOutside(errors: Entries<RpcError>, claimed: set<string>, k: int) {
    0 <= k < |errors| && errors[k].0 !in claimed && forall j :: 0 <= j < k ==> errors[j].0 in claimed
  }

  lemma {:induction false} FirstUnclaimedIsFirst(errors: Entries<RpcError>, claimed: set<string>)
    ensures var first := FirstUnclaimed(errors, claimed);
            if first.Some? then exists k :: FirstOutside(errors, claimed, k) && first == Some(errors[k].1)
            else forall e :: e in errors ==> e.0 in claimed
  {
    if errors != [] {
      if errors[0].0 !in claimed {
        assert FirstOutside(errors, claimed, 0);
      } else {
        var rest := errors[1..];
        FirstUnclaimedIsFirst(rest, claimed);
        if FirstUnclaimed(rest, claimed).Some? {
          var k :| FirstOutside(rest, claimed, k) && FirstUnclaimed(rest, claimed) == Some(rest[k].1);
          assert FirstOutside(errors, claimed, k + 1);
        }
      }
    }
  }

  /** The fatal slot holds the first thrown error of the middleFns and then the routes, in their order; if none of
      them threw, the first error to arrive under an id that is no participant's; else nothing. */
  ghost predicate IsFatal(
    errors: Entries<RpcError>, thrownIds: set<string>, order: seq<string>, fatal: Option<RpcError>)
  {
    if exists id :: id in order && id in thrownIds && Find(errors, id).Some? then
      exists i :: FirstAt(errors, thrownIds, order, i) && fatal == Find(errors, order[i])
    else if exists e :: e in errors && e.0 !in Elements(order) then
      exists k :: FirstOutside(errors, Elements(order), k) && fatal == Some(errors[k].1)
    else fatal == None
  }

  lemma FatalIsFirst(errors: Entries<RpcError>, thrownIds: set<string>, middleIds: seq<string>, routeIds: seq<string>)
    ensures IsFatal(errors, thrownIds, middleIds + routeIds, Fatal(errors, thrownIds, middleIds, routeIds))
  {
    hide Find, FirstThrown, FirstUnclaimed, FirstAt;
    var order := middleIds + routeIds;
    FirstThrownOfBoth(errors, thrownIds, middleIds, routeIds);
    FirstThrownIsFirst(errors, thrownIds, order);
    FirstThrownIff(errors, thrownIds, order);
    FirstUnclaimedIsFirst(errors, Elements(order));
    assert Elements(order) == Elements(middleIds) + Elements(routeIds);
  }

  /** There is one such error. */
  lemma FatalIsUnique(
    errors: Entries<RpcError>, thrownIds: set<string>, middleIds: seq<string>, routeIds: seq<string>,
    fatal: Option<RpcError>)
    requires IsFatal(errors, thrownIds, middleIds + routeIds, fatal)
    ensures fatal == Fatal(errors, thrownIds, middleIds, routeIds)
  {
    hide Find, Fatal;
    FatalIsFirst(errors, thrownIds, middleIds, routeIds);
  }

  /** A name's place in the record of errors: its own middleFn's declared error and nothing else. */
  lemma {:induction false} NamedErrorsFind(
    errors: Entries<RpcError>, thrownIds: set<string>, middleFns: Entries<Sub>, name: string)
    requires UniqueNames(middleFns)
    ensures var m := Find(middleFns, name);
            Find(NamedErrors(errors, thrownIds, middleFns), name) ==
              if m.Some? then Declared(errors, thrownIds, m.value.id) else None
  {
    hide Declared;
    if middleFns != [] {
      var front, last := middleFns[..|middleFns| - 1], middleFns[|middleFns| - 1];
      assert middleFns == front + [last];
      NamedErrorsFind(errors, thrownIds, front, name);
      FindAppended(front, last, name);
      var declared := Declared(errors, thrownIds, last.1.id);
      if declared.Some? { SetFinds(NamedErrors(errors, thrownIds, front), last.0, declared.value, name); }
    }
  }

  lemma {:induction false} NamedValuesFind(middleFns: Entries<Sub>, name: string)
    requires UniqueNames(middleFns)
    ensures var m := Find(middleFns, name);
            Find(NamedValues(middleFns), name) == if m.Some? && !m.value.value.Undefined? then Some(m.value.value)
              else None
  {
    if middleFns != [] {
      var front, last := middleFns[..|middleFns| - 1], middleFns[|middleFns| - 1];
      assert middleFns == front + [last];
      NamedValuesFind(front, name);
      FindAppended(front, last, name);
      if !last.1.value.Undefined? { SetFinds(NamedValues(front), last.0, last.1.value, name); }
    }
  }

  /** The routes' error slot holds an error at its route's own place. */
  ghost predicate InRouteSlot(routes: Routes, routeError: Slot<Option<RpcError>>, id: string, e: RpcError) {
    match routes
    case NoRoute => false
    case Single(sub) => sub.id == id && routeError == One(Some(e))
    case Workflow(subs) =>
      && routeError.Many? && |routeError.items| == |subs|
      && (exists i :: 0 <= i < |subs| && subs[i].id == id && routeError.items[i] == Some(e))
  }

  /** The middleFns' error record holds an error under a name of its own middleFn. */
  ghost predicate InNamedSlot(middleFns: Entries<Sub>, named: Entries<RpcError>, id: string, e: RpcError) {
    exists i :: 0 <= i < |middleFns| && middleFns[i].1.id == id && Find(named, middleFns[i].0) == Some(e)
  }

  /** Whatever else failed, a participant's declared error is at its own place; any other error fills the fatal slot. */
  lemma NoErrorIsLost(
    routes: Routes, middleFns: Entries<Sub>, errors: Entries<RpcError>, thrownIds: set<string>, r: CallResult,
    id: string)
    requires UniqueNames(middleFns) && Find(errors, id).Some?
    requires r.fatal == Fatal(errors, thrownIds, MiddleIds(middleFns), RouteIds(routes))
    requires r.middleFnErrors == NamedErrors(errors, thrownIds, middleFns)
    requires RouteParts(routes, errors, thrownIds, r.routeResult, r.routeError)
    ensures var e := Find(errors, id).value;
            && (id in MiddleIds(middleFns) && id !in thrownIds ==> InNamedSlot(middleFns, r.middleFnErrors, id, e))
            && (id in RouteIds(routes) && id !in thrownIds ==> InRouteSlot(routes, r.routeError, id, e))
            && (id in thrownIds || (id !in MiddleIds(middleFns) && id !in RouteIds(routes)) ==> r.fatal.Some?)
  {
    hide Find, Fatal, NamedErrors;
    var middleIds, routeIds, e := MiddleIds(middleFns), RouteIds(routes), Find(errors, id).value;
    FatalIff(errors, thrownIds, middleIds, routeIds);
    if id !in thrownIds && id in middleIds {
      var i :| 0 <= i < |middleIds| && middleIds[i] == id;
      NamedErrorsFind(errors, thrownIds, middleFns, middleFns[i].0);
      FindUnique(middleFns, i);
    }
    if id !in thrownIds && id in routeIds && routes.Workflow? {
      var i :| 0 <= i < |routeIds| && routeIds[i] == id;
      var declared := DeclaredOf(errors, thrownIds, routes.subs);
      assert routes.subs[i].id == id && declared[i] == Some(e);
      assert declared[i] in declared;
      assert InRouteSlot(routes, r.routeError, id, e);
    }
  }

  // ---------- From the wire to the slots ----------

  /** A participant's declared error: what its own response holds, or a validation error thrown for it. Any other
      thrown error, and any error under an id nobody asked for, is undeclared. */
  lemma DeclaredFromTheWire(
    ids: seq<string>, body: ResponseBody, headers: string -> Option<Received>, skip: Option<string>, id: string)
    requires UniqueNames(body.entries) && UniqueNames(body.thrown) && id in ids
    ensures var errors, thrownIds :=
        CollectedErrors(ids, body, headers, skip), UndeclaredIds(body.thrown) + UnaskedIds(ids, body.entries);
            var thrown, resp := Find(body.thrown, id), ResponseOf(body, headers, id);
            && (thrown.Some? && thrown.value.errorType != VALIDATION_ERROR ==>
                 id in thrownIds && Find(errors, id) == thrown)
            && (thrown.Some? && thrown.value.errorType == VALIDATION_ERROR ==>
                 Declared(errors, thrownIds, id) == thrown)
            && (thrown.None? ==>
                 Declared(errors, thrownIds, id) == if Some(id) != skip && resp.Failed? then Some(resp.error) else None)
  {
    hide ResponseOf, CollectedErrors;
    CollectedFinds(ids, body, headers, skip, id);
    FindIsThere(body.thrown, id);
    forall t | t in body.thrown && t.0 == id ensures Find(body.thrown, id) == Some(t.1) {
      var i :| 0 <= i < |body.thrown| && body.thrown[i] == t;
      FindUnique(body.thrown, i);
    }
  }

  lemma UnaskedFromTheWire(
    ids: seq<string>, body: ResponseBody, headers: string -> Option<Received>, skip: Option<string>, id: string)
    requires UniqueNames(body.entries) && UniqueNames(body.thrown) && id !in ids
    requires Find(body.entries, id).Some? && Find(body.entries, id).value.Failed?
    ensures Find(CollectedErrors(ids, body, headers, skip), id) == Some(Find(body.entries, id).value.error)
    ensures id in UnaskedIds(ids, body.entries)
  {
    hide ResponseOf, CollectedErrors;
    CollectedFinds(ids, body, headers, skip, id);
    FindIsThere(body.entries, id);
  }

  /** A platform error is nobody's: it is the fatal error of the call. */
  lemma PlatformErrorIsFatal(error: RpcError, middleIds: seq<string>, routeIds: seq<string>)
    requires CLIENT_REQUEST_ERROR_ID !in middleIds && CLIENT_REQUEST_ERROR_ID !in routeIds
    ensures Fatal(Set([], CLIENT_REQUEST_ERROR_ID, error), {CLIENT_REQUEST_ERROR_ID}, middleIds, routeIds) ==
        Some(error)
  {
    var errors := Set([], CLIENT_REQUEST_ERROR_ID, error);
    FirstThrownIff(errors, {CLIENT_REQUEST_ERROR_ID}, middleIds);
    FirstThrownIff(errors, {CLIENT_REQUEST_ERROR_ID}, routeIds);
  }

  // ---------- Naming the middleFns ----------

  function Plain(all: seq<Sub>): (es: Entries<Sub>)
    ensures |es| == |all|
  {
    seq(|all|, i requires 0 <= i < |all| => (all[i].id, all[i]))
  }

  function WithRestored(record: Entries<Sub>, recordIds: set<string>, all: seq<Sub>): Entries<Sub> {
    if all == [] then record
    else
      var before, last := WithRestored(record, recordIds, all[..|all| - 1]), all[|all| - 1];
      if last.id in recordIds then before else Set(before, last.id, last)
  }

  /** Record entries keep their names; participants that are not in the record go under their id. */
  method MergeMiddleFns(record: Option<Entries<Sub>>, all: seq<Sub>) returns (merged: Entries<Sub>)
    ensures merged == if record.None? then Plain(all)
        else WithRestored(record.value, Elements(MiddleIds(record.value)), all)
  {
    if record.None? { return Plain(all); }
    hide Set;
    var recordIds := Elements(MiddleIds(record.value));
    merged := record.value;
    for i := 0 to |all|
      invariant merged == WithRestored(record.value, recordIds, all[..i])
    {
      assert all[..i + 1][..i] == all[..i];
      if all[i].id !in recordIds { merged := Set(merged, all[i].id, all[i]); }
    }
    assert all[..|all|] == all;
  }

  /** What stands under a name once the restored participants are in: the last of them with that id, else the
      record's own. */
  function LastRestored(recordIds: set<string>, all: seq<Sub>, name: string): Option<Sub> {
    if all == [] then None
    else
      var last := all[|all| - 1];
      if last.id == name && name !in recordIds then Some(last) else LastRestored(recordIds, all[..|all| - 1], name)
  }

  lemma {:induction false} WithRestoredFinds(record: Entries<Sub>, recordIds: set<string>, all: seq<Sub>, name: string)
    ensures var restored := LastRestored(recordIds, all, name);
            Find(WithRestored(record, recordIds, all), name) == if restored.Some? then restored else Find(record, name)
  {
    hide Find, Set;
    if all != [] {
      var front, last := all[..|all| - 1], all[|all| - 1];
      WithRestoredFinds(record, recordIds, front, name);
      SetFinds(WithRestored(record, recordIds, front), last.id, last, name);
    }
  }

  lemma {:induction false} LastRestoredIff(recordIds: set<string>, all: seq<Sub>, name: string)
    ensures LastRestored(recordIds, all, name).Some? <==> name !in recordIds && exists m :: m in all && m.id == name
    ensures var last := LastRestored(recordIds, all, name);
            last.Some? ==> last.value.id == name && last.value in all
  {
    if all != [] {
      var front, last := all[..|all| - 1], all[|all| - 1];
      LastRestoredIff(recordIds, front, name);
      assert all == front + [last];
    }
  }

  /** No participant outside the record has a record name as its id. */
  ghost predicate NamesAreFree(record: Entries<Sub>, all: seq<Sub>) {
    forall m, i :: m in all && 0 <= i < |record| && m.id !in Elements(MiddleIds(record)) ==> m.id != record[i].0
  }

  /** Every record entry keeps its place exactly when no other participant's id is a record name. */
  lemma RecordIsKeptIff(record: Entries<Sub>, all: seq<Sub>)
    requires UniqueNames(record)
    ensures (forall i :: 0 <= i < |record| ==>
               Find(WithRestored(record, Elements(MiddleIds(record)), all), record[i].0) == Some(record[i].1)) <==>
                 NamesAreFree(record, all)
  {
    hide Find, WithRestored, UniqueNames, LastRestored;
    var recordIds := Elements(MiddleIds(record));
    forall i | 0 <= i < |record|
      ensures (Find(WithRestored(record, recordIds, all), record[i].0) == Some(record[i].1)) <==>
              !(record[i].0 !in recordIds && exists m :: m in all && m.id == record[i].0)
    {
      WithRestoredFinds(record, recordIds, all, record[i].0);
      LastRestoredIff(recordIds, all, record[i].0);
      FindUnique(record, i);
      assert MiddleIds(record)[i] == record[i].1.id;
    }
    if NamesAreFree(record, all) {
      forall i | 0 <= i < |record|
        ensures Find(WithRestored(record, recordIds, all), record[i].0) == Some(record[i].1)
      {
      }
    }
  }

  /** With a record name that is another participant's id, a declared error ends up in the fatal slot. */
  lemma CollidingNameMakesDeclaredFatal(name: string, id: string, error: RpcError)
    requires name != id
    ensures var asked, restored := Sub(id, Undefined), Sub(name, Undefined);
            var merged := WithRestored([(name, asked)], {id}, [asked, restored]);
            && Declared([(id, error)], {}, id) == Some(error)
            && NamedErrors([(id, error)], {}, merged) == []
            && Fatal([(id, error)], {}, MiddleIds(merged), []) == Some(error)
  {
    var asked, restored := Sub(id, Undefined), Sub(name, Undefined);
    var errors := [(id, error)];
    assert [asked, restored][..1] == [asked] && [asked][..0] == [];
    var merged := WithRestored([(name, asked)], {id}, [asked, restored]);
    assert WithRestored([(name, asked)], {id}, [asked]) == [(name, asked)];
    assert merged == [(name, restored)];
    assert merged[..0] == [] && Find(errors, name) == None;
    assert MiddleIds(merged) == [name];
    FirstThrownIff(errors, {}, [name]);
    FirstThrownIff(errors, {}, []);
    assert FirstUnclaimed(errors, {name}) == Some(error);
    assert Elements([name]) + Elements([]) == {name};
  }
}
