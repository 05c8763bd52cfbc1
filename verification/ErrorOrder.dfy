/** Whether the client's fatal error is the first one, in order of execution, that nobody declared. */
module ErrorOrder {
  import opened Basics
  import opened ClientResult

  // ---------- How a chain can end ----------

  /** A method of a chain, as far as its errors go. */
  datatype Turn = Turn(id: string, runOnError: bool, mayAnswer: bool)

  /** What a method leaves behind: nothing, an error thrown, or a value for the response. */
  datatype Outcome = Quiet | Threw(error: RpcError) | Answered(value: Received)

  /** How a chain can end: after an error only those go on that run on errors, and only those answer that return
      data. */
  ghost predicate CanEnd(exec: seq<Turn>, outs: seq<Outcome>) {
    && |outs| == |exec|
    && (forall i, j :: 0 <= i < j < |exec| && outs[i].Threw? && !outs[j].Quiet? ==> exec[j].runOnError)
    && forall i :: 0 <= i < |exec| && outs[i].Answered? ==> exec[i].mayAnswer
  }

  /** The thrown errors as they are sent: each id in the place of its first error. */
  function ThrownBy(exec: seq<Turn>, outs: seq<Outcome>): Entries<RpcError>
    requires |exec| == |outs|
  {
    if exec == [] then []
    else
      var n := |exec| - 1;
      var before := ThrownBy(exec[..n], outs[..n]);
      if outs[n].Threw? then Set(before, exec[n].id, outs[n].error) else before
  }

  /** The values sent, likewise. */
  function AnsweredBy(exec: seq<Turn>, outs: seq<Outcome>): Entries<Received>
    requires |exec| == |outs|
  {
    if exec == [] then []
    else
      var n := |exec| - 1;
      var before := AnsweredBy(exec[..n], outs[..n]);
      if outs[n].Answered? then Set(before, exec[n].id, outs[n].value) else before
  }

  function BodyOf(exec: seq<Turn>, outs: seq<Outcome>): ResponseBody
    requires |exec| == |outs|
  {
    ResponseBody(AnsweredBy(exec, outs), ThrownBy(exec, outs), None)
  }

  /** The error of a method that nobody declared: one thrown that is not a participant's validation error, or one
      answered by a method that was not asked. `ids` are the participants. */
  function Undeclared(ids: seq<string>, turn: Turn, out: Outcome): Option<RpcError> {
    match out
    case Threw(error) => if error.errorType != "validation-error" || turn.id !in ids then Some(error) else None
    case Answered(value) => if value.Failed? && turn.id !in ids then Some(value.error) else None
    case Quiet => None
  }

  /** The first of them in order of execution: what the fatal slot is said to hold. */
  function FirstUndeclared(ids: seq<string>, exec: seq<Turn>, outs: seq<Outcome>): Option<RpcError>
    requires |exec| == |outs|
  {
    if exec == [] then None
    else
      var first := Undeclared(ids, exec[0], outs[0]);
      if first.Some? then first else FirstUndeclared(ids, exec[1..], outs[1..])
  }

  ghost predicate IsFirstUndeclared(ids: seq<string>, exec: seq<Turn>, outs: seq<Outcome>, k: int)
    requires |exec| == |outs|
  {
    && 0 <= k < |exec| && Undeclared(ids, exec[k], outs[k]).Some?
    && forall j :: 0 <= j < k ==> Undeclared(ids, exec[j], outs[j]).None?
  }

  lemma {:induction false} FirstUndeclaredIs(ids: seq<string>, exec: seq<Turn>, outs: seq<Outcome>)
    requires |exec| == |outs|
    ensures var first := FirstUndeclared(ids, exec, outs);
            if first.Some? then
              exists k :: IsFirstUndeclared(ids, exec, outs, k) && first == Undeclared(ids, exec[k], outs[k])
            else forall j :: 0 <= j < |exec| ==> Undeclared(ids, exec[j], outs[j]).None?
  {
    hide Undeclared;
    if exec != [] {
      if Undeclared(ids, exec[0], outs[0]).Some? {
        assert IsFirstUndeclared(ids, exec, outs, 0);
      } else {
        FirstUndeclaredIs(ids, exec[1..], outs[1..]);
        if k :| IsFirstUndeclared(ids, exec[1..], outs[1..], k)
                && FirstUndeclared(ids, exec[1..], outs[1..]) == Undeclared(ids, exec[1..][k], outs[1..][k]) {
          assert IsFirstUndeclared(ids, exec, outs, k + 1);
        }
        assert forall j :: 0 < j < |exec| ==> exec[j] == exec[1..][j - 1] && outs[j] == outs[1..][j - 1];
      }
    }
  }

  lemma FirstUndeclaredAt(ids: seq<string>, exec: seq<Turn>, outs: seq<Outcome>, k: nat)
    requires |exec| == |outs| && IsFirstUndeclared(ids, exec, outs, k)
    ensures FirstUndeclared(ids, exec, outs) == Undeclared(ids, exec[k], outs[k])
  {
    hide Undeclared, FirstUndeclared;
    FirstUndeclaredIs(ids, exec, outs);
    if FirstUndeclared(ids, exec, outs).Some? {
      var m :| IsFirstUndeclared(ids, exec, outs, m)
               && FirstUndeclared(ids, exec, outs) == Undeclared(ids, exec[m], outs[m]);
      assert m == k;
    }
  }

  // ---------- What is sent ----------

  ghost predicate LastThrow(exec: seq<Turn>, outs: seq<Outcome>, id: string, k: int)
    requires |exec| == |outs|
  {
    && 0 <= k < |exec| && exec[k].id == id && outs[k].Threw?
    && forall j :: k < j < |exec| && exec[j].id == id ==> !outs[j].Threw?
  }

  lemma {:induction false} ThrownFinds(exec: seq<Turn>, outs: seq<Outcome>, id: string)
    requires |exec| == |outs|
    ensures UniqueNames(ThrownBy(exec, outs))
    ensures var sent := Find(ThrownBy(exec, outs), id);
            if sent.Some? then exists k :: LastThrow(exec, outs, id, k) && sent.value == outs[k].error
            else forall k :: 0 <= k < |exec| && exec[k].id == id ==> !outs[k].Threw?
  {
    hide UniqueNames, Find, Set;
    if exec == [] {
      NothingSent<RpcError>(id);
    } else {
      var n := |exec| - 1;
      var before := ThrownBy(exec[..n], outs[..n]);
      ThrownFinds(exec[..n], outs[..n], id);
      if outs[n].Threw? {
        SetFinds(before, exec[n].id, outs[n].error, id);
        SetKeepsNames(before, exec[n].id, outs[n].error);
      }
      if outs[n].Threw? && exec[n].id == id {
        assert LastThrow(exec, outs, id, n);
      } else if k :| LastThrow(exec[..n], outs[..n], id, k) && Find(before, id) == Some(outs[..n][k].error) {
        assert LastThrow(exec, outs, id, k);
      }
    }
  }

  ghost predicate LastAnswer(exec: seq<Turn>, outs: seq<Outcome>, id: string, k: int)
    requires |exec| == |outs|
  {
    && 0 <= k < |exec| && exec[k].id == id && outs[k].Answered?
    && forall j :: k < j < |exec| && exec[j].id == id ==> !outs[j].Answered?
  }

  lemma {:induction false} AnswersFind(exec: seq<Turn>, outs: seq<Outcome>, id: string)
    requires |exec| == |outs|
    ensures UniqueNames(AnsweredBy(exec, outs))
    ensures var sent := Find(AnsweredBy(exec, outs), id);
            if sent.Some? then exists k :: LastAnswer(exec, outs, id, k) && sent.value == outs[k].value
            else forall k :: 0 <= k < |exec| && exec[k].id == id ==> !outs[k].Answered?
  {
    hide UniqueNames, Find, Set;
    if exec == [] {
      NothingSent<Received>(id);
    } else {
      var n := |exec| - 1;
      var before := AnsweredBy(exec[..n], outs[..n]);
      AnswersFind(exec[..n], outs[..n], id);
      if outs[n].Answered? {
        SetFinds(before, exec[n].id, outs[n].value, id);
        SetKeepsNames(before, exec[n].id, outs[n].value);
      }
      if outs[n].Answered? && exec[n].id == id {
        assert LastAnswer(exec, outs, id, n);
      } else if k :| LastAnswer(exec[..n], outs[..n], id, k) && Find(before, id) == Some(outs[..n][k].value) {
        assert LastAnswer(exec, outs, id, k);
      }
    }
  }

  lemma NothingSent<V>(id: string)
    ensures UniqueNames<V>([]) && Find<V>([], id) == None
  {
  }

  lemma SetKeepsNames<V>(es: Entries<V>, id: string, v: V)
    requires UniqueNames(es)
    ensures UniqueNames(Set(es, id, v))
  {
    SetMembers(es, id, v);
  }

  // ---------- The first error that no participant claims ----------

  function Stray<V>(es: Entries<V>, claimed: set<string>): Option<(string, V)> {
    if es == [] then None else if es[0].0 !in claimed then Some(es[0]) else Stray(es[1..], claimed)
  }

  lemma {:induction false} StrayIsFirstUnclaimed(es: Entries<RpcError>, claimed: set<string>)
    ensures FirstUnclaimed(es, claimed) ==
            if Stray(es, claimed).Some? then Some(Stray(es, claimed).value.1) else None
  {
    if es != [] { StrayIsFirstUnclaimed(es[1..], claimed); }
  }

  lemma {:induction false} SetMovesStray<V>(es: Entries<V>, id: string, v: V, claimed: set<string>)
    ensures Stray(Set(es, id, v), claimed) ==
            if id !in claimed && (Stray(es, claimed).None? || Stray(es, claimed).value.0 == id) then Some((id, v))
            else Stray(es, claimed)
  {
    if es != [] {
      if es[0].0 == id {
        assert Set(es, id, v)[1..] == es[1..];
      } else {
        SetMovesStray(es[1..], id, v, claimed);
        assert Set(es, id, v)[1..] == Set(es[1..], id, v);
      }
    }
  }

  /** Reading the thrown errors into an empty table gives them back. */
  lemma {:induction false} ThrownArrive(thrown: Entries<RpcError>)
    requires UniqueNames(thrown)
    ensures AfterThrown([], thrown) == thrown
  {
    if thrown != [] {
      var front, last := thrown[..|thrown| - 1], thrown[|thrown| - 1];
      ThrownArrive(front);
      assert thrown == front + [last];
      FindAppended(front, last, last.0);
      SetAppends(front, last.0, last.1);
    }
  }

  /** The first unclaimed id that throws leads the strays, if it throws only once. */
  lemma {:induction false} ThrownStray(exec: seq<Turn>, outs: seq<Outcome>, claimed: set<string>, k: nat)
    requires |exec| == |outs| && k < |exec| && outs[k].Threw? && exec[k].id !in claimed
    requires forall j :: 0 <= j < k && outs[j].Threw? ==> exec[j].id in claimed
    requires forall j :: k < j < |exec| && outs[j].Threw? ==> exec[j].id != exec[k].id
    ensures Stray(ThrownBy(exec, outs), claimed) == Some((exec[k].id, outs[k].error))
  {
    hide Stray, Set;
    var n := |exec| - 1;
    if k == n {
      NoThrownStray(exec[..n], outs[..n], claimed);
      SetMovesStray(ThrownBy(exec[..n], outs[..n]), exec[n].id, outs[n].error, claimed);
    } else {
      ThrownStray(exec[..n], outs[..n], claimed, k);
      if outs[n].Threw? {
        SetMovesStray(ThrownBy(exec[..n], outs[..n]), exec[n].id, outs[n].error, claimed);
      }
    }
  }

  lemma {:induction false} NoThrownStray(exec: seq<Turn>, outs: seq<Outcome>, claimed: set<string>)
    requires |exec| == |outs|
    requires forall j :: 0 <= j < |exec| && outs[j].Threw? ==> exec[j].id in claimed
    ensures Stray(ThrownBy(exec, outs), claimed) == None
  {
    if exec != [] {
      var n := |exec| - 1;
      NoThrownStray(exec[..n], outs[..n], claimed);
      if outs[n].Threw? {
        SetMovesStray(ThrownBy(exec[..n], outs[..n]), exec[n].id, outs[n].error, claimed);
      }
    }
  }

  /** Participants without a slot who are sent no error leave the strays alone. */
  lemma {:induction false} ParticipantsKeepStray(
    errors: Entries<RpcError>, ids: seq<string>, body: ResponseBody, headers: string -> Option<Received>,
    skip: Option<string>, claimed: set<string>)
    requires forall id :: id in ids && id !in claimed ==> !ResponseOf(body, headers, id).Failed?
    ensures Stray(AfterParticipants(errors, ids, body, headers, skip), claimed) == Stray(errors, claimed)
  {
    hide ResponseOf, Stray, Set, Find;
    if ids != [] {
      var front, last := ids[..|ids| - 1], ids[|ids| - 1];
      ParticipantsKeepStray(errors, front, body, headers, skip, claimed);
      var before, resp := AfterParticipants(errors, front, body, headers, skip), ResponseOf(body, headers, last);
      if resp.Failed? { SetMovesStray(before, last, resp.error, claimed); }
    }
  }

  /** Errors of ids nobody asked for come after a stray of another id. */
  lemma {:induction false} UnaskedKeepStray(
    errors: Entries<RpcError>, ids: seq<string>, entries: Entries<Received>, claimed: set<string>)
    requires Stray(errors, claimed).Some?
    requires forall e :: e in entries && Unasked(ids, e) ==> e.0 != Stray(errors, claimed).value.0
    ensures Stray(AfterUnasked(errors, ids, entries), claimed) == Stray(errors, claimed)
  {
    hide Stray, Set;
    if entries != [] {
      var front, last := entries[..|entries| - 1], entries[|entries| - 1];
      UnaskedKeepStray(errors, ids, front, claimed);
      if Unasked(ids, last) { SetMovesStray(AfterUnasked(errors, ids, front), last.0, last.1.error, claimed); }
    }
  }

  /** If only one id nobody asked for has an error, and there is no other stray, it is the stray. */
  lemma {:induction false} OneUnaskedIsStray(
    errors: Entries<RpcError>, ids: seq<string>, entries: Entries<Received>, claimed: set<string>, id: string,
    error: RpcError)
    requires Stray(errors, claimed).None? && id !in claimed
    requires forall e :: e in entries && Unasked(ids, e) ==> e == (id, Failed(error))
    ensures Stray(AfterUnasked(errors, ids, entries), claimed) ==
            if exists e :: e in entries && Unasked(ids, e) then Some((id, error)) else None
  {
    hide Stray, Set;
    if entries != [] {
      var front, last := entries[..|entries| - 1], entries[|entries| - 1];
      OneUnaskedIsStray(errors, ids, front, claimed, id, error);
      assert entries == front + [last];
      if Unasked(ids, last) {
        assert last in entries;
        SetMovesStray(AfterUnasked(errors, ids, front), last.0, last.1.error, claimed);
      }
    }
  }

  // ---------- The fatal slot ----------

  /** What the fatal slot holds once a response is read. `ids` are the participants, `middleIds` and `routeIds` those
      with a slot of their own. */
  function FatalOn(
    ids: seq<string>, middleIds: seq<string>, routeIds: seq<string>, body: ResponseBody,
    headers: string -> Option<Received>, skip: Option<string>): Option<RpcError>
  {
    Fatal(CollectedErrors(ids, body, headers, skip), UndeclaredOn(ids, body), middleIds, routeIds)
  }

  /** One id is listed before any place of another. */
  ghost predicate Precedes(order: seq<string>, a: string, b: string) {
    exists x :: 0 <= x < |order| && order[x] == a && b !in order[..x + 1]
  }

  lemma ListedBefore(order: seq<string>, a: string, b: string, x: int)
    requires Precedes(order, a, b) && 0 <= x < |order| && order[x] == b
    ensures exists y :: 0 <= y < x && order[y] == a
  {
    var y :| 0 <= y < |order| && order[y] == a && b !in order[..y + 1];
    assert forall k :: 0 <= k <= y ==> order[..y + 1][k] == order[k];
  }

  lemma FirstListedPrecedes(order: seq<string>, a: string, b: string, x: int)
    requires 0 <= x < |order| && order[x] == a != b && forall k :: 0 <= k < x ==> order[k] != b
    ensures Precedes(order, a, b)
  {
    assert b !in order[..x + 1];
  }

  lemma NothingPrecedesItself(order: seq<string>, a: string)
    ensures !Precedes(order, a, a)
  {
    forall x | 0 <= x < |order| && order[x] == a ensures a in order[..x + 1] {
      assert order[..x + 1][x] == a;
    }
  }

  /** The methods of a chain have slots, when they take part at all. */
  ghost predicate SlotsForAll(exec: seq<Turn>, ids: seq<string>, order: seq<string>) {
    forall i :: 0 <= i < |exec| && exec[i].id in ids ==> exec[i].id in order
  }

  /** Whatever runs before a participant that runs on errors is listed before it. */
  ghost predicate KeepsExecution(exec: seq<Turn>, order: seq<string>) {
    forall i, j :: 0 <= i < j < |exec| && exec[j].runOnError && exec[j].id in order ==>
      Precedes(order, exec[i].id, exec[j].id)
  }

  /** A method that was not asked returns no data, unless it is the last. */
  ghost predicate UnaskedAnswersLast(exec: seq<Turn>, ids: seq<string>) {
    forall i :: 0 <= i < |exec| - 1 && exec[i].mayAnswer ==> exec[i].id in ids
  }

  /** A method that was not asked and runs on errors runs only once. */
  ghost predicate UnaskedRunsOnce(exec: seq<Turn>, ids: seq<string>) {
    forall i, j :: 0 <= i < j < |exec| && exec[i].id == exec[j].id && exec[j].runOnError ==> exec[j].id in ids
  }

  ghost predicate Agrees(exec: seq<Turn>, ids: seq<string>, order: seq<string>) {
    SlotsForAll(exec, ids, order) && KeepsExecution(exec, order) && UnaskedAnswersLast(exec, ids)
    && UnaskedRunsOnce(exec, ids)
  }

  /** No error arrives in the headers: what a header subset restores is a value. */
  ghost predicate NoErrorInHeaders(headers: string -> Option<Received>) {
    forall id :: headers(id).Some? ==> !headers(id).value.Failed?
  }

  /** The error of a participant that threw, and of nobody else among them, can be taken from its place. */
  lemma ThrownByParticipant(
    ids: seq<string>, body: ResponseBody, headers: string -> Option<Received>, skip: Option<string>, id: string)
    requires UniqueNames(body.entries) && UniqueNames(body.thrown) && id in ids
    ensures var errors, thrown := CollectedErrors(ids, body, headers, skip), Find(body.thrown, id);
            && (id in UndeclaredOn(ids, body) && Find(errors, id).Some? <==>
                 thrown.Some? && thrown.value.errorType != VALIDATION_ERROR)
            && (id in UndeclaredOn(ids, body) ==> Find(errors, id) == thrown)
  {
    hide ResponseOf, CollectedErrors;
    CollectedFinds(ids, body, headers, skip, id);
    FindIsThere(body.thrown, id);
    if t :| t in body.thrown && t.0 == id && t.1.errorType != VALIDATION_ERROR {
      var i :| 0 <= i < |body.thrown| && body.thrown[i] == t;
      FindUnique(body.thrown, i);
    }
  }

  /** An error nobody declared was thrown by this participant. */
  ghost predicate ThrewFatally(exec: seq<Turn>, outs: seq<Outcome>, id: string)
    requires |exec| == |outs|
  {
    exists j :: 0 <= j < |exec| && exec[j].id == id && outs[j].Threw? && outs[j].error.errorType != VALIDATION_ERROR
  }

  /** Nobody listed threw. */
  lemma NoneListedThrew(
    ids: seq<string>, order: seq<string>, exec: seq<Turn>, outs: seq<Outcome>, headers: string -> Option<Received>,
    skip: Option<string>)
    requires |exec| == |outs| && (forall id :: id in order ==> id in ids && !ThrewFatally(exec, outs, id))
    ensures var body := BodyOf(exec, outs);
            FirstThrown(CollectedErrors(ids, body, headers, skip), UndeclaredOn(ids, body), order) == None
  {
    hide Find, CollectedErrors, UndeclaredOn, UniqueNames, ThrownBy, AnsweredBy, FirstThrown;
    var body := BodyOf(exec, outs);
    FirstThrownIff(CollectedErrors(ids, body, headers, skip), UndeclaredOn(ids, body), order);
    forall id | id in order
      ensures !(id in UndeclaredOn(ids, body) && Find(CollectedErrors(ids, body, headers, skip), id).Some?)
    {
      ThrownFinds(exec, outs, id);
      AnswersFind(exec, outs, id);
      ThrownByParticipant(ids, body, headers, skip, id);
    }
  }

  /** The last error of a listed id is taken, if it is listed before all others that threw. */
  lemma FirstListedIsTaken(
    ids: seq<string>, order: seq<string>, exec: seq<Turn>, outs: seq<Outcome>, headers: string -> Option<Received>,
    skip: Option<string>, k: nat)
    requires |exec| == |outs| && (forall id :: id in order ==> id in ids) && k < |exec| && exec[k].id in order
    requires LastThrow(exec, outs, exec[k].id, k) && outs[k].error.errorType != VALIDATION_ERROR
    requires forall id :: id in order && id != exec[k].id && ThrewFatally(exec, outs, id) ==>
               !Precedes(order, id, exec[k].id)
    ensures var body := BodyOf(exec, outs);
            FirstThrown(CollectedErrors(ids, body, headers, skip), UndeclaredOn(ids, body), order) ==
            Some(outs[k].error)
  {
    hide Find, CollectedErrors, UndeclaredOn, UniqueNames, ThrownBy, AnsweredBy, FirstThrown, Precedes;
    var body, a := BodyOf(exec, outs), exec[k].id;
    var errors, thrownIds := CollectedErrors(ids, body, headers, skip), UndeclaredOn(ids, body);
    ThrownFinds(exec, outs, a);
    AnswersFind(exec, outs, a);
    ThrownByParticipant(ids, body, headers, skip, a);
    FirstThrownIff(errors, thrownIds, order);
    FirstThrownIsFirst(errors, thrownIds, order);
    var x :| FirstAt(errors, thrownIds, order, x) && FirstThrown(errors, thrownIds, order) == Find(errors, order[x]);
    if order[x] != a {
      ThrownFinds(exec, outs, order[x]);
      ThrownByParticipant(ids, body, headers, skip, order[x]);
      assert ThrewFatally(exec, outs, order[x]);
      FirstListedPrecedes(order, order[x], a, x);
    }
  }

  lemma PrecedesOneWay(order: seq<string>, a: string, b: string)
    requires Precedes(order, a, b)
    ensures a in order && !Precedes(order, b, a)
  {
    forall y | 0 <= y < |order| && order[y] == b ensures a in order[..y + 1] {
      ListedBefore(order, a, b, y);
      var z :| 0 <= z < y && order[z] == a;
      assert order[..y + 1][z] == a;
    }
  }

  /** A participant's error is the first undeclared one: it is the one taken. */
  lemma ParticipantFirst(
    ids: seq<string>, order: seq<string>, exec: seq<Turn>, outs: seq<Outcome>, headers: string -> Option<Received>,
    skip: Option<string>, k: nat)
    requires CanEnd(exec, outs) && Agrees(exec, ids, order) && (forall id :: id in order ==> id in ids)
    requires IsFirstUndeclared(ids, exec, outs, k) && exec[k].id in order
    ensures var body := BodyOf(exec, outs);
            FirstThrown(CollectedErrors(ids, body, headers, skip), UndeclaredOn(ids, body), order) ==
            Undeclared(ids, exec[k], outs[k])
  {
    hide Precedes, ThrownBy, AnsweredBy, CollectedErrors, UndeclaredOn, FirstThrown;
    var a := exec[k].id;
    NothingPrecedesItself(order, a);
    assert forall j :: k < j < |exec| && exec[j].id == a ==> !outs[j].Threw?;
    forall id | id in order && id != a && ThrewFatally(exec, outs, id) ensures !Precedes(order, id, a) {
      var j :| 0 <= j < |exec| && exec[j].id == id && outs[j].Threw? && outs[j].error.errorType != VALIDATION_ERROR;
      assert Undeclared(ids, exec[j], outs[j]).Some?;
      PrecedesOneWay(order, a, id);
    }
    FirstListedIsTaken(ids, order, exec, outs, headers, skip, k);
  }

  /** The first undeclared error is not a listed one's: no listed one threw. */
  lemma OthersFirst(ids: seq<string>, order: seq<string>, exec: seq<Turn>, outs: seq<Outcome>, k: int)
    requires CanEnd(exec, outs) && Agrees(exec, ids, order) && (forall id :: id in order ==> id in ids)
    requires IsFirstUndeclared(ids, exec, outs, k) && exec[k].id !in order
    ensures forall id :: id in order ==> !ThrewFatally(exec, outs, id)
  {
    hide Precedes;
    forall id | id in order && ThrewFatally(exec, outs, id) ensures false {
      var j :| 0 <= j < |exec| && exec[j].id == id && outs[j].Threw? && outs[j].error.errorType != VALIDATION_ERROR;
      assert Undeclared(ids, exec[j], outs[j]).Some?;
      if outs[k].Threw? { PrecedesOneWay(order, exec[k].id, exec[j].id); }
    }
  }

  lemma {:induction false} NothingUnasked(errors: Entries<RpcError>, ids: seq<string>, entries: Entries<Received>)
    requires forall e :: e in entries ==> !Unasked(ids, e)
    ensures AfterUnasked(errors, ids, entries) == errors
  {
    if entries != [] { NothingUnasked(errors, ids, entries[..|entries| - 1]); }
  }

  /** A participant without a slot is not in the chain, so nothing is sent for it. */
  lemma LostAreSilent(
    ids: seq<string>, order: seq<string>, exec: seq<Turn>, outs: seq<Outcome>, headers: string -> Option<Received>,
    id: string)
    requires |exec| == |outs| && SlotsForAll(exec, ids, order) && NoErrorInHeaders(headers)
    requires id in ids && id !in order
    ensures !ResponseOf(BodyOf(exec, outs), headers, id).Failed?
  {
    hide ThrownBy, AnsweredBy, Find;
    AnswersFind(exec, outs, id);
    assert forall k :: 0 <= k < |exec| ==> exec[k].id != id;
  }

  /** What is sent by a method nobody asked, it answered in its last turn. */
  lemma UnaskedIsAnswered(ids: seq<string>, exec: seq<Turn>, outs: seq<Outcome>, e: (string, Received))
    requires CanEnd(exec, outs) && UnaskedAnswersLast(exec, ids)
    requires e in AnsweredBy(exec, outs) && Unasked(ids, e)
    ensures exec != [] && exec[|exec| - 1].id == e.0 && outs[|exec| - 1] == Answered(e.1)
  {
    hide ThrownBy, AnsweredBy, Find;
    var entries := AnsweredBy(exec, outs);
    AnswersFind(exec, outs, e.0);
    var i :| 0 <= i < |entries| && entries[i] == e;
    FindUnique(entries, i);
    var k :| LastAnswer(exec, outs, e.0, k) && Find(entries, e.0) == Some(outs[k].value);
    assert exec[k].mayAnswer;
  }

  lemma ErrorsCollected(
    ids: seq<string>, order: seq<string>, exec: seq<Turn>, outs: seq<Outcome>, headers: string -> Option<Received>,
    skip: Option<string>) returns (before: Entries<RpcError>)
    requires |exec| == |outs| && SlotsForAll(exec, ids, order) && NoErrorInHeaders(headers)
    ensures Stray(before, Elements(order)) == Stray(ThrownBy(exec, outs), Elements(order))
    ensures CollectedErrors(ids, BodyOf(exec, outs), headers, skip) == AfterUnasked(before, ids, AnsweredBy(exec, outs))
  {
    hide ThrownBy, AnsweredBy, Stray, ResponseOf, AfterParticipants, AfterUnasked, AfterThrown, SlotsForAll;
    var body := BodyOf(exec, outs);
    ThrownFinds(exec, outs, "");
    ThrownArrive(body.thrown);
    before := AfterParticipants(body.thrown, ids, body, headers, skip);
    forall id | id in ids && id !in Elements(order) ensures !ResponseOf(body, headers, id).Failed? {
      LostAreSilent(ids, order, exec, outs, headers, id);
    }
    ParticipantsKeepStray(body.thrown, ids, body, headers, skip, Elements(order));
  }

  /** A method nobody asked threw first: its error is the first unclaimed one. */
  lemma UnaskedThrowIsStray(
    ids: seq<string>, order: seq<string>, exec: seq<Turn>, outs: seq<Outcome>, headers: string -> Option<Received>,
    skip: Option<string>, k: nat)
    requires CanEnd(exec, outs) && Agrees(exec, ids, order) && NoErrorInHeaders(headers)
    requires IsFirstUndeclared(ids, exec, outs, k) && exec[k].id !in order && outs[k].Threw?
    ensures Stray(CollectedErrors(ids, BodyOf(exec, outs), headers, skip), Elements(order)) ==
            Some((exec[k].id, outs[k].error))
  {
    hide ThrownBy, AnsweredBy, Stray, AfterUnasked, CollectedErrors, KeepsExecution;
    assert forall j :: 0 <= j < k && outs[j].Threw? ==> exec[j].id in order;
    assert forall j :: k < j < |exec| && outs[j].Threw? ==> exec[j].id != exec[k].id;
    ThrownStray(exec, outs, Elements(order), k);
    var before := ErrorsCollected(ids, order, exec, outs, headers, skip);
    var entries := AnsweredBy(exec, outs);
    forall e | e in entries && Unasked(ids, e) ensures e.0 != exec[k].id {
      UnaskedIsAnswered(ids, exec, outs, e);
    }
    UnaskedKeepStray(before, ids, entries, Elements(order));
  }

  /** A method nobody asked answered with the first undeclared error. */
  lemma UnaskedAnswerIsStray(
    ids: seq<string>, order: seq<string>, exec: seq<Turn>, outs: seq<Outcome>, headers: string -> Option<Received>,
    skip: Option<string>, k: nat)
    requires CanEnd(exec, outs) && Agrees(exec, ids, order) && NoErrorInHeaders(headers)
    requires forall id :: id in order ==> id in ids
    requires IsFirstUndeclared(ids, exec, outs, k) && outs[k].Answered?
    ensures Stray(CollectedErrors(ids, BodyOf(exec, outs), headers, skip), Elements(order)) ==
            Some((exec[k].id, outs[k].value.error))
  {
    hide ThrownBy, AnsweredBy, Stray, AfterUnasked, CollectedErrors, KeepsExecution, Find;
    var id, error := exec[k].id, outs[k].value.error;
    assert forall j :: 0 <= j < |exec| && outs[j].Threw? ==> exec[j].id in order;
    NoThrownStray(exec, outs, Elements(order));
    var before := ErrorsCollected(ids, order, exec, outs, headers, skip);
    var entries := AnsweredBy(exec, outs);
    forall e | e in entries && Unasked(ids, e) ensures e == (id, Failed(error)) {
      UnaskedIsAnswered(ids, exec, outs, e);
    }
    OneUnaskedIsStray(before, ids, entries, Elements(order), id, error);
    AnswersFind(exec, outs, id);
    FindIsThere(entries, id);
    assert (id, Failed(error)) in entries;
  }

  /** No undeclared error at all: nothing strays. */
  lemma NothingStrays(
    ids: seq<string>, order: seq<string>, exec: seq<Turn>, outs: seq<Outcome>, headers: string -> Option<Received>,
    skip: Option<string>)
    requires CanEnd(exec, outs) && Agrees(exec, ids, order) && NoErrorInHeaders(headers)
    requires forall j :: 0 <= j < |exec| ==> Undeclared(ids, exec[j], outs[j]).None?
    ensures Stray(CollectedErrors(ids, BodyOf(exec, outs), headers, skip), Elements(order)) == None
  {
    hide ThrownBy, AnsweredBy, Stray, AfterUnasked, CollectedErrors, KeepsExecution;
    assert forall j :: 0 <= j < |exec| && outs[j].Threw? ==> exec[j].id in order;
    NoThrownStray(exec, outs, Elements(order));
    var before := ErrorsCollected(ids, order, exec, outs, headers, skip);
    forall e | e in AnsweredBy(exec, outs) ensures !Unasked(ids, e) {
      if Unasked(ids, e) { UnaskedIsAnswered(ids, exec, outs, e); }
    }
    NothingUnasked(before, ids, AnsweredBy(exec, outs));
  }

  /** Where the order agrees, the fatal slot holds the first undeclared error. */
  lemma AgreedIsFirst(
    ids: seq<string>, middleIds: seq<string>, routeIds: seq<string>, exec: seq<Turn>, outs: seq<Outcome>,
    headers: string -> Option<Received>, skip: Option<string>)
    requires CanEnd(exec, outs) && Agrees(exec, ids, middleIds + routeIds) && NoErrorInHeaders(headers)
    requires forall id :: id in middleIds + routeIds ==> id in ids
    ensures FatalOn(ids, middleIds, routeIds, BodyOf(exec, outs), headers, skip) == FirstUndeclared(ids, exec, outs)
  {
    hide BodyOf, Stray, CollectedErrors, UndeclaredOn, FirstThrown, FirstUnclaimed, Agrees;
    var order, body := middleIds + routeIds, BodyOf(exec, outs);
    var errors := CollectedErrors(ids, body, headers, skip);
    assert Elements(order) == Elements(middleIds) + Elements(routeIds);
    FirstThrownOfBoth(errors, UndeclaredOn(ids, body), middleIds, routeIds);
    StrayIsFirstUnclaimed(errors, Elements(order));
    FirstUndeclaredIs(ids, exec, outs);
    if FirstUndeclared(ids, exec, outs).Some? {
      var k :| IsFirstUndeclared(ids, exec, outs, k)
               && FirstUndeclared(ids, exec, outs) == Undeclared(ids, exec[k], outs[k]);
      if exec[k].id in order {
        ParticipantFirst(ids, order, exec, outs, headers, skip, k);
      } else {
        OthersFirst(ids, order, exec, outs, k);
        NoneListedThrew(ids, order, exec, outs, headers, skip);
        if outs[k].Threw? {
          UnaskedThrowIsStray(ids, order, exec, outs, headers, skip, k);
        } else {
          UnaskedAnswerIsStray(ids, order, exec, outs, headers, skip, k);
        }
      }
    } else {
      forall id | id in order ensures id in ids && !ThrewFatally(exec, outs, id) {
        assert forall j :: 0 <= j < |exec| ==> Undeclared(ids, exec[j], outs[j]).None?;
      }
      NoneListedThrew(ids, order, exec, outs, headers, skip);
      NothingStrays(ids, order, exec, outs, headers, skip);
    }
  }

  // ---------- When the fatal slot misses the first ----------

  /** Two methods leave something behind, the others nothing. */
  function TwoEnds(exec: seq<Turn>, i: int, a: Outcome, j: int, b: Outcome): (outs: seq<Outcome>)
    ensures |outs| == |exec|
  {
    seq(|exec|, x => if x == i then a else if x == j then b else Quiet)
  }

  lemma TwoCanEnd(exec: seq<Turn>, i: nat, a: Outcome, j: nat, b: Outcome)
    requires i < j < |exec| && (a.Threw? ==> exec[j].runOnError)
    requires (a.Answered? ==> exec[i].mayAnswer) && (b.Answered? ==> exec[j].mayAnswer)
    ensures CanEnd(exec, TwoEnds(exec, i, a, j, b))
  {
  }

  /** Whoever is listed before the first to throw is taken. */
  lemma ListedLaterIsTaken(
    ids: seq<string>, middleIds: seq<string>, routeIds: seq<string>, exec: seq<Turn>, i: nat, j: nat, e: RpcError,
    f: RpcError, headers: string -> Option<Received>, skip: Option<string>)
    requires i < j < |exec| && exec[j].runOnError && exec[j].id in middleIds + routeIds
    requires !Precedes(middleIds + routeIds, exec[i].id, exec[j].id)
    requires forall id :: id in middleIds + routeIds ==> id in ids
    requires e.errorType != VALIDATION_ERROR && f.errorType != VALIDATION_ERROR
    ensures var outs := TwoEnds(exec, i, Threw(e), j, Threw(f));
            && CanEnd(exec, outs) && FirstUndeclared(ids, exec, outs) == Some(e)
            && FatalOn(ids, middleIds, routeIds, BodyOf(exec, outs), headers, skip) == Some(f)
  {
    hide Precedes, BodyOf, CollectedErrors, UndeclaredOn, FirstThrown, FirstUnclaimed, FirstUndeclared;
    var outs, order := TwoEnds(exec, i, Threw(e), j, Threw(f)), middleIds + routeIds;
    TwoCanEnd(exec, i, Threw(e), j, Threw(f));
    FirstUndeclaredAt(ids, exec, outs, i);
    FirstListedIsTaken(ids, order, exec, outs, headers, skip, j);
    var body := BodyOf(exec, outs);
    FirstThrownOfBoth(CollectedErrors(ids, body, headers, skip), UndeclaredOn(ids, body), middleIds, routeIds);
  }

  /** A stray is fatal when nobody listed threw. */
  lemma StrayIsTaken(
    ids: seq<string>, middleIds: seq<string>, routeIds: seq<string>, exec: seq<Turn>, outs: seq<Outcome>,
    headers: string -> Option<Received>, skip: Option<string>)
    requires |exec| == |outs| && forall id :: id in middleIds + routeIds ==> id in ids && !ThrewFatally(exec, outs, id)
    ensures var stray :=
              Stray(CollectedErrors(ids, BodyOf(exec, outs), headers, skip), Elements(middleIds + routeIds));
            FatalOn(ids, middleIds, routeIds, BodyOf(exec, outs), headers, skip) ==
            if stray.Some? then Some(stray.value.1) else None
  {
    hide BodyOf, CollectedErrors, UndeclaredOn, FirstThrown, FirstUnclaimed, Stray, ThrewFatally;
    var order, body := middleIds + routeIds, BodyOf(exec, outs);
    var errors := CollectedErrors(ids, body, headers, skip);
    NoneListedThrew(ids, order, exec, outs, headers, skip);
    FirstThrownOfBoth(errors, UndeclaredOn(ids, body), middleIds, routeIds);
    StrayIsFirstUnclaimed(errors, Elements(order));
    assert Elements(order) == Elements(middleIds) + Elements(routeIds);
  }

  /** A participant without a slot fails validation: its own declared error is fatal. */
  lemma LostIsFatal(
    ids: seq<string>, middleIds: seq<string>, routeIds: seq<string>, exec: seq<Turn>, i: nat, e: RpcError)
    requires i < |exec| && exec[i].id in ids && exec[i].id !in middleIds + routeIds
    requires e.errorType == VALIDATION_ERROR
    ensures var outs := TwoEnds(exec, i, Threw(e), i, Quiet);
            && CanEnd(exec, outs) && FirstUndeclared(ids, exec, outs) == None
            && FatalOn(ids, middleIds, routeIds, BodyOf(exec, outs), _ => None, None).Some?
  {
    hide ThrownBy, AnsweredBy, CollectedErrors, UndeclaredOn, Find, FirstUndeclared, Fatal, UniqueNames;
    var outs := TwoEnds(exec, i, Threw(e), i, Quiet);
    var body, id := BodyOf(exec, outs), exec[i].id;
    FirstUndeclaredIs(ids, exec, outs);
    ThrownFinds(exec, outs, id);
    AnswersFind(exec, outs, id);
    CollectedFinds(ids, body, _ => None, None, id);
    FatalIff(CollectedErrors(ids, body, _ => None, None), UndeclaredOn(ids, body), middleIds, routeIds);
    assert id !in Elements(middleIds) + Elements(routeIds);
  }

  /** A method nobody asked runs twice and throws twice: its last error is sent in the place of the first. */
  lemma SecondErrorIsTaken(
    ids: seq<string>, middleIds: seq<string>, routeIds: seq<string>, exec: seq<Turn>, i: nat, j: nat, e: RpcError,
    f: RpcError)
    requires i < j < |exec| && exec[j].runOnError && exec[i].id == exec[j].id && exec[j].id !in ids
    requires SlotsForAll(exec, ids, middleIds + routeIds) && forall id :: id in middleIds + routeIds ==> id in ids
    ensures var outs := TwoEnds(exec, i, Threw(e), j, Threw(f));
            && CanEnd(exec, outs) && FirstUndeclared(ids, exec, outs) == Some(e)
            && FatalOn(ids, middleIds, routeIds, BodyOf(exec, outs), _ => None, None) == Some(f)
  {
    hide BodyOf, CollectedErrors, FirstUndeclared, Stray, ThrownBy, AnsweredBy, AfterUnasked, FatalOn, SlotsForAll;
    var outs, order := TwoEnds(exec, i, Threw(e), j, Threw(f)), middleIds + routeIds;
    TwoCanEnd(exec, i, Threw(e), j, Threw(f));
    FirstUndeclaredAt(ids, exec, outs, i);
    TwiceThrownStray(exec, outs, Elements(order), i, j);
    var before := ErrorsCollected(ids, order, exec, outs, _ => None, None);
    NothingAnswered(exec, outs);
    NothingUnasked(before, ids, AnsweredBy(exec, outs));
    StrayIsTaken(ids, middleIds, routeIds, exec, outs, _ => None, None);
  }

  lemma {:induction false} NothingAnswered(exec: seq<Turn>, outs: seq<Outcome>)
    requires |exec| == |outs| && forall j :: 0 <= j < |exec| ==> !outs[j].Answered?
    ensures AnsweredBy(exec, outs) == []
  {
    if exec != [] { NothingAnswered(exec[..|exec| - 1], outs[..|exec| - 1]); }
  }

  lemma {:induction false} TwiceThrownStray(
    exec: seq<Turn>, outs: seq<Outcome>, claimed: set<string>, i: nat, j: nat)
    requires |exec| == |outs| && i < j < |exec| && exec[i].id == exec[j].id && exec[j].id !in claimed && outs[j].Threw?
    requires forall x :: 0 <= x < |exec| && outs[x].Threw? ==> x == i || x == j
    ensures Stray(ThrownBy(exec, outs), claimed) == Some((exec[j].id, outs[j].error))
  {
    hide Stray, Set;
    var n := |exec| - 1;
    if j == n {
      if outs[i].Threw? {
        ThrownStray(exec[..n], outs[..n], claimed, i);
      } else {
        NoThrownStray(exec[..n], outs[..n], claimed);
      }
      SetMovesStray(ThrownBy(exec[..n], outs[..n]), exec[n].id, outs[n].error, claimed);
    } else {
      TwiceThrownStray(exec[..n], outs[..n], claimed, i, j);
    }
  }

  /** A method nobody asked returns an error, and a later one throws: the later error is taken. */
  lemma AnswerIsHidden(
    ids: seq<string>, middleIds: seq<string>, routeIds: seq<string>, exec: seq<Turn>, i: nat, j: nat, e: RpcError,
    f: RpcError)
    requires i < j < |exec| && exec[i].mayAnswer && exec[i].id !in ids && exec[i].id != exec[j].id
    requires f.errorType != VALIDATION_ERROR
    requires SlotsForAll(exec, ids, middleIds + routeIds) && forall id :: id in middleIds + routeIds ==> id in ids
    ensures var outs := TwoEnds(exec, i, Answered(Failed(e)), j, Threw(f));
            && CanEnd(exec, outs) && FirstUndeclared(ids, exec, outs) == Some(e)
            && FatalOn(ids, middleIds, routeIds, BodyOf(exec, outs), _ => None, None) == Some(f)
  {
    hide BodyOf, CollectedErrors, FirstUndeclared, Stray, ThrownBy, AnsweredBy, AfterUnasked, UndeclaredOn, FirstThrown,
      FirstUnclaimed, Precedes, SlotsForAll, Find;
    var outs, order := TwoEnds(exec, i, Answered(Failed(e)), j, Threw(f)), middleIds + routeIds;
    TwoCanEnd(exec, i, Answered(Failed(e)), j, Threw(f));
    FirstUndeclaredAt(ids, exec, outs, i);
    var body := BodyOf(exec, outs);
    if exec[j].id in order {
      FirstListedIsTaken(ids, order, exec, outs, _ => None, None, j);
      FirstThrownOfBoth(CollectedErrors(ids, body, _ => None, None), UndeclaredOn(ids, body), middleIds, routeIds);
    } else {
      ThrownStray(exec, outs, Elements(order), j);
      var before := ErrorsCollected(ids, order, exec, outs, _ => None, None);
      forall x | x in AnsweredBy(exec, outs) && Unasked(ids, x) ensures x.0 != exec[j].id {
        AnswersFind(exec, outs, x.0);
        FindIsThere(AnsweredBy(exec, outs), x.0);
      }
      UnaskedKeepStray(before, ids, AnsweredBy(exec, outs), Elements(order));
      StrayIsTaken(ids, middleIds, routeIds, exec, outs, _ => None, None);
    }
  }

  /** The same method answers twice: its last error is sent. */
  lemma SecondAnswerIsTaken(
    ids: seq<string>, middleIds: seq<string>, routeIds: seq<string>, exec: seq<Turn>, i: nat, j: nat, e: RpcError,
    f: RpcError)
    requires i < j < |exec| && exec[i].mayAnswer && exec[i] == exec[j] && exec[i].id !in ids
    requires SlotsForAll(exec, ids, middleIds + routeIds) && forall id :: id in middleIds + routeIds ==> id in ids
    ensures var outs := TwoEnds(exec, i, Answered(Failed(e)), j, Answered(Failed(f)));
            && CanEnd(exec, outs) && FirstUndeclared(ids, exec, outs) == Some(e)
            && FatalOn(ids, middleIds, routeIds, BodyOf(exec, outs), _ => None, None) == Some(f)
  {
    hide BodyOf, CollectedErrors, FirstUndeclared, Stray, ThrownBy, AnsweredBy, AfterUnasked, FatalOn, SlotsForAll,
      Find;
    var outs, order := TwoEnds(exec, i, Answered(Failed(e)), j, Answered(Failed(f))), middleIds + routeIds;
    TwoCanEnd(exec, i, Answered(Failed(e)), j, Answered(Failed(f)));
    FirstUndeclaredAt(ids, exec, outs, i);
    NoThrownStray(exec, outs, Elements(order));
    var before := ErrorsCollected(ids, order, exec, outs, _ => None, None);
    var entries := AnsweredBy(exec, outs);
    forall x | x in entries ensures x == (exec[j].id, Failed(f)) {
      AnswersFind(exec, outs, x.0);
      var m :| 0 <= m < |entries| && entries[m] == x;
      FindUnique(entries, m);
    }
    OneUnaskedIsStray(before, ids, entries, Elements(order), exec[j].id, f);
    AnswersFind(exec, outs, exec[j].id);
    FindIsThere(entries, exec[j].id);
    assert Unasked(ids, (exec[j].id, Failed(f)));
    StrayIsTaken(ids, middleIds, routeIds, exec, outs, _ => None, None);
  }

  // ---------- The theorem ----------

  /** A method that stands twice in a chain is one method. */
  ghost predicate OneMethodPerId(exec: seq<Turn>) {
    forall i, j :: 0 <= i < j < |exec| && exec[i].id == exec[j].id ==> exec[i] == exec[j]
  }

  /** The fatal slot holds the first undeclared error in order of execution, however the chain ends. */
  ghost predicate AlwaysFirst(
    exec: seq<Turn>, ids: seq<string>, middleIds: seq<string>, routeIds: seq<string>)
  {
    forall outs, headers, skip | CanEnd(exec, outs) && NoErrorInHeaders(headers) ::
      FatalOn(ids, middleIds, routeIds, BodyOf(exec, outs), headers, skip) == FirstUndeclared(ids, exec, outs)
  }

  lemma NotAlwaysFirst(
    exec: seq<Turn>, ids: seq<string>, middleIds: seq<string>, routeIds: seq<string>, outs: seq<Outcome>)
    requires CanEnd(exec, outs)
    requires FatalOn(ids, middleIds, routeIds, BodyOf(exec, outs), _ => None, None) != FirstUndeclared(ids, exec, outs)
    ensures !AlwaysFirst(exec, ids, middleIds, routeIds)
  {
    hide CanEnd, FatalOn, BodyOf, FirstUndeclared;
    assert NoErrorInHeaders(_ => None);
  }

  /** The fatal slot holds the first error in order of execution that nobody declared, however the chain ends, exactly
      when every participant in the chain has a slot, whatever runs before a participant that runs on errors is listed
      before it, methods nobody asked return no data unless they are last, and those that run on errors run once. */
  lemma FatalIsFirstInExecutionIff(
    exec: seq<Turn>, ids: seq<string>, middleIds: seq<string>, routeIds: seq<string>)
    requires OneMethodPerId(exec) && forall id :: id in middleIds + routeIds ==> id in ids
    ensures AlwaysFirst(exec, ids, middleIds, routeIds) <==> Agrees(exec, ids, middleIds + routeIds)
  {
    hide FatalOn, BodyOf, FirstUndeclared, NoErrorInHeaders, Agrees;
    if Agrees(exec, ids, middleIds + routeIds) {
      forall outs, headers, skip | CanEnd(exec, outs) && NoErrorInHeaders(headers)
        ensures FatalOn(ids, middleIds, routeIds, BodyOf(exec, outs), headers, skip) ==
                FirstUndeclared(ids, exec, outs)
      {
        AgreedIsFirst(ids, middleIds, routeIds, exec, outs, headers, skip);
      }
    }
    if !Agrees(exec, ids, middleIds + routeIds) { DisagreementShows(exec, ids, middleIds, routeIds); }
  }

  lemma DisagreementShows(exec: seq<Turn>, ids: seq<string>, middleIds: seq<string>, routeIds: seq<string>)
    requires OneMethodPerId(exec) && forall id :: id in middleIds + routeIds ==> id in ids
    requires !Agrees(exec, ids, middleIds + routeIds)
    ensures !AlwaysFirst(exec, ids, middleIds, routeIds)
  {
    hide CanEnd, FatalOn, BodyOf, FirstUndeclared, NoErrorInHeaders, AlwaysFirst, Precedes;
    var order, e, f := middleIds + routeIds, RpcError("first", None, 0), RpcError("second", None, 1);
    if !SlotsForAll(exec, ids, order) {
      var i :| 0 <= i < |exec| && exec[i].id in ids && exec[i].id !in order;
      var invalid := RpcError(VALIDATION_ERROR, None, 0);
      LostIsFatal(ids, middleIds, routeIds, exec, i, invalid);
      NotAlwaysFirst(exec, ids, middleIds, routeIds, TwoEnds(exec, i, Threw(invalid), i, Quiet));
    } else if !KeepsExecution(exec, order) {
      var i, j :| 0 <= i < j < |exec| && exec[j].runOnError && exec[j].id in order
                  && !Precedes(order, exec[i].id, exec[j].id);
      ListedLaterIsTaken(ids, middleIds, routeIds, exec, i, j, e, f, _ => None, None);
      NotAlwaysFirst(exec, ids, middleIds, routeIds, TwoEnds(exec, i, Threw(e), j, Threw(f)));
    } else if !UnaskedRunsOnce(exec, ids) {
      var i, j :| 0 <= i < j < |exec| && exec[i].id == exec[j].id && exec[j].runOnError && exec[j].id !in ids;
      SecondErrorIsTaken(ids, middleIds, routeIds, exec, i, j, e, f);
      NotAlwaysFirst(exec, ids, middleIds, routeIds, TwoEnds(exec, i, Threw(e), j, Threw(f)));
    } else {
      var i :| 0 <= i < |exec| - 1 && exec[i].mayAnswer && exec[i].id !in ids;
      if exec[i].id == exec[i + 1].id {
        SecondAnswerIsTaken(ids, middleIds, routeIds, exec, i, i + 1, e, f);
        var outs := TwoEnds(exec, i, Answered(Failed(e)), i + 1, Answered(Failed(f)));
        NotAlwaysFirst(exec, ids, middleIds, routeIds, outs);
      } else {
        AnswerIsHidden(ids, middleIds, routeIds, exec, i, i + 1, e, f);
        NotAlwaysFirst(exec, ids, middleIds, routeIds, TwoEnds(exec, i, Answered(Failed(e)), i + 1, Threw(f)));
      }
    }
  }

  /** Behind a method that was not asked, as the router's start methods are, no participant may run on errors. */
  lemma UnaskedStartAllowsNoRunOnError(exec: seq<Turn>, ids: seq<string>, order: seq<string>, j: nat)
    requires Agrees(exec, ids, order) && 0 < j < |exec| && exec[0].id !in ids && exec[j].id in order
    requires forall id :: id in order ==> id in ids
    ensures !exec[j].runOnError
  {
    hide Precedes;
    if Precedes(order, exec[0].id, exec[j].id) { PrecedesOneWay(order, exec[0].id, exec[j].id); }
  }

  // ---------- Where everyone runs on errors ----------

  ghost predicate KeepsOrder(order: seq<string>, run: seq<string>) {
    forall i, j :: 0 <= i < j < |run| ==> Precedes(order, run[i], run[j])
  }

  lemma TailKeepsOrder(order: seq<string>, run: seq<string>)
    requires NoDup(run) && order != [] && run != [] && order[0] == run[0] && KeepsOrder(order, run)
    ensures KeepsOrder(order[1..], run[1..])
  {
    hide Precedes;
    var rest := run[1..];
    forall i, j | 0 <= i < j < |rest| ensures Precedes(order[1..], rest[i], rest[j]) {
      assert run[0] != run[i + 1];
      TailPrecedes(order, run[i + 1], run[j + 1]);
    }
  }

  lemma TailPrecedes(order: seq<string>, a: string, b: string)
    requires order != [] && a != order[0] && Precedes(order, a, b)
    ensures Precedes(order[1..], a, b)
  {
    var x :| 0 <= x < |order| && order[x] == a && b !in order[..x + 1];
    assert order[1..][x - 1] == a;
    assert order[1..][..x] == order[..x + 1][1..];
  }

  lemma HeadsAgree(order: seq<string>, run: seq<string>)
    requires run != [] && order != [] && order[0] in run && KeepsOrder(order, run)
    ensures order[0] == run[0]
  {
    hide Precedes;
    var j :| 0 <= j < |run| && run[j] == order[0];
    if run[0] != order[0] { NothingPrecedesTheHead(order, run[0]); }
  }

  lemma NothingPrecedesTheHead(order: seq<string>, a: string)
    requires order != [] && a != order[0]
    ensures !Precedes(order, a, order[0])
  {
    forall x | 0 <= x < |order| && order[x] == a ensures order[0] in order[..x + 1] {
      assert order[..x + 1][0] == order[0];
    }
  }

  lemma {:induction false} OrderIsKeptIff(order: seq<string>, run: seq<string>)
    requires NoDup(order) && NoDup(run) && Elements(order) == Elements(run)
    ensures KeepsOrder(order, run) <==> order == run
    decreases |run|
  {
    hide Precedes;
    NoDupCardinality(order);
    NoDupCardinality(run);
    if KeepsOrder(order, run) && run != [] {
      assert order[0] in Elements(order);
      HeadsAgree(order, run);
      TailElements(order);
      TailElements(run);
      TailKeepsOrder(order, run);
      OrderIsKeptIff(order[1..], run[1..]);
      assert order == [order[0]] + order[1..] && run == [run[0]] + run[1..];
    }
    if order == run {
      forall i, j | 0 <= i < j < |run| ensures Precedes(order, run[i], run[j]) {
        FirstListedPrecedes(order, run[i], run[j], i);
      }
    }
  }

  lemma TailElements(s: seq<string>)
    requires NoDup(s) && s != []
    ensures NoDup(s[1..]) && Elements(s[1..]) == Elements(s) - {s[0]}
  {
    assert forall x :: x in s <==> x == s[0] || x in s[1..];
  }

  function IdsIn(exec: seq<Turn>): (run: seq<string>)
    ensures |run| == |exec|
  {
    seq(|exec|, i requires 0 <= i < |exec| => exec[i].id)
  }

  /** In a chain of participants that all run on errors, only the order of execution will do. */
  lemma OnlyExecutionOrderWill(exec: seq<Turn>, middleIds: seq<string>, routeIds: seq<string>)
    requires NoDup(middleIds + routeIds) && NoDup(IdsIn(exec))
    requires Elements(middleIds + routeIds) == Elements(IdsIn(exec))
    requires forall turn :: turn in exec ==> turn.runOnError
    ensures AlwaysFirst(exec, middleIds + routeIds, middleIds, routeIds) <==> middleIds + routeIds == IdsIn(exec)
  {
    hide AlwaysFirst, Precedes;
    var order, run := middleIds + routeIds, IdsIn(exec);
    forall i, j | 0 <= i < j < |exec| ensures exec[i].id != exec[j].id { assert run[i] != run[j]; }
    FatalIsFirstInExecutionIff(exec, order, middleIds, routeIds);
    OrderIsKeptIff(order, run);
    forall i | 0 <= i < |exec| ensures exec[i].id in order && exec[i] in exec {
      assert run[i] in Elements(run);
      assert exec[i].id in Elements(order);
    }
    assert KeepsExecution(exec, order) <==> KeepsOrder(order, run);
  }
}
