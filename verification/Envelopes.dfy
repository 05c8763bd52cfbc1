/** What an envelope carries, said of the methods and the body alone. */
module Envelopes {
  import opened Basics
  import opened TextEncoding
  import opened DataView
  import opened BodySerializer
  import opened BodyDeserializer

  /** The code units of a string of ASCII characters. */
  function Ascii(s: string): JsString
    requires forall i :: 0 <= i < |s| ==> s[i] as int < 0x80
  {
    seq(|s|, i requires 0 <= i < |s| => s[i] as int)
  }

  lemma ReservedIdIsNamed()
    ensures THROWN_ERRORS == Ascii("@thrownErrors")
  {
  }

  // ---------- What travels ----------

  /** The method's params travel: they are in the body and its params encoder does something. */
  ghost predicate ParamsTravel<V>(m: Method<V>, body: Body<V>) {
    m.id in body && m.paramsJit.toBinary.Some? && !m.paramsJit.isNoop && m.id != Ascii("@thrownErrors")
  }

  ghost predicate ResultTravels<V>(m: Method<V>, body: Body<V>) {
    && m.hasReturnData
    && m.id in body && m.returnJit.toBinary.Some? && !m.returnJit.isNoop && m.id != Ascii("@thrownErrors")
  }

  // ---------- What does not matter ----------

  /** The same requests: only what a method returns may differ. */
  ghost predicate SameRequests<V>(a: seq<Method<V>>, b: seq<Method<V>>) {
    |a| == |b| && forall i :: 0 <= i < |a| ==> a[i].id == b[i].id && a[i].paramsJit == b[i].paramsJit
  }

  ghost predicate SameResponses<V>(a: seq<Method<V>>, b: seq<Method<V>>) {
    |a| == |b| && forall i :: 0 <= i < |a| ==>
      a[i].id == b[i].id && a[i].returnJit == b[i].returnJit && a[i].hasReturnData == b[i].hasReturnData
  }

  ghost predicate SameEnvelopes<V>(a: seq<Method<V>>, b: seq<Method<V>>, body: Body<V>, isResponse: bool) {
    && Envelope(a, body, isResponse) == Envelope(b, body, isResponse)
    && FirstFailure(a, body, isResponse) == FirstFailure(b, body, isResponse)
  }

  /** A request does not depend on what its methods return: bytes and failures are the same. */
  lemma RequestIgnoresReturns<V>(a: seq<Method<V>>, b: seq<Method<V>>, body: Body<V>)
    requires SameRequests(a, b)
    ensures SameEnvelopes(a, b, body, false)
  {
    forall i | 0 <= i < |a| ensures SameEntry(a[i], b[i], body, false) { }
    SameEntries(a, b, body, false);
  }

  /** A response does not depend on what its methods take. */
  lemma ResponseIgnoresParams<V>(a: seq<Method<V>>, b: seq<Method<V>>, body: Body<V>)
    requires SameResponses(a, b)
    ensures SameEnvelopes(a, b, body, true)
  {
    forall i | 0 <= i < |a| ensures SameEntry(a[i], b[i], body, true) { }
    SameEntries(a, b, body, true);
  }

  ghost predicate SameEntry<V>(m: Method<V>, n: Method<V>, body: Body<V>, isResponse: bool) {
    && WillSerialize(m, body, isResponse) == WillSerialize(n, body, isResponse)
    && EntryBytes(m, body, isResponse) == EntryBytes(n, body, isResponse)
    && EntryFailure(m, body, isResponse) == EntryFailure(n, body, isResponse)
  }

  lemma {:induction false} SameEntries<V>(a: seq<Method<V>>, b: seq<Method<V>>, body: Body<V>, isResponse: bool)
    requires |a| == |b| && forall i :: 0 <= i < |a| ==> SameEntry(a[i], b[i], body, isResponse)
    ensures SameEnvelopes(a, b, body, isResponse) && Entries(a, body, isResponse) == Entries(b, body, isResponse)
    ensures |Written(a, body, isResponse)| == |Written(b, body, isResponse)|
  {
    hide EntryBytes, EntryFailure, WillSerialize, Uint32, Entries, Written, FirstFailure;
    if a != [] {
      var n := |a| - 1;
      assert SameEntry(a[n], b[n], body, isResponse);
      SameEntries(a[..n], b[..n], body, isResponse);
      LastAdds(a, body, isResponse);
      LastAdds(b, body, isResponse);
    } else {
      assert a == b;
    }
  }

  // ---------- Who contributes nothing ----------

  /** Leaving a method out of the chain leaves the envelope as it is. */
  ghost predicate Contributes<V>(chain: seq<Method<V>>, i: nat, body: Body<V>, isResponse: bool)
    requires i < |chain|
  {
    !SameEnvelopes(chain, chain[..i] + chain[i + 1..], body, isResponse)
  }

  /** Without return data, without a value in the body, without an encoder that does something, or under the id of the
      thrown errors a method contributes nothing to a response. */
  lemma SilentInResponses<V>(chain: seq<Method<V>>, i: nat, body: Body<V>)
    requires i < |chain|
    requires var m := chain[i];
             !m.hasReturnData || m.id !in body || m.returnJit.toBinary.None? || m.returnJit.isNoop
               || m.id == Ascii("@thrownErrors")
    ensures !Contributes(chain, i, body, true)
  {
    ReservedIdIsNamed();
    LeftOut(chain, i, body, true);
  }

  /** Likewise in a request, where return data does not matter. */
  lemma SilentInRequests<V>(chain: seq<Method<V>>, i: nat, body: Body<V>)
    requires i < |chain|
    requires var m := chain[i];
             m.id !in body || m.paramsJit.toBinary.None? || m.paramsJit.isNoop || m.id == Ascii("@thrownErrors")
    ensures !Contributes(chain, i, body, false)
  {
    ReservedIdIsNamed();
    LeftOut(chain, i, body, false);
  }

  lemma {:induction false} LeftOut<V>(chain: seq<Method<V>>, i: nat, body: Body<V>, isResponse: bool)
    requires i < |chain| && !WillSerialize(chain[i], body, isResponse)
    ensures var rest := chain[..i] + chain[i + 1..];
            && SameEnvelopes(chain, rest, body, isResponse)
            && Entries(chain, body, isResponse) == Entries(rest, body, isResponse)
            && |Written(chain, body, isResponse)| == |Written(rest, body, isResponse)|
  {
    hide WillSerialize, Uint32, Entries, Written, FirstFailure;
    var n, rest := |chain| - 1, chain[..i] + chain[i + 1..];
    LastAdds(chain, body, isResponse);
    if i == n {
      assert rest == chain[..n];
    } else {
      hide EntryBytes, EntryFailure;
      LeftOut(chain[..n], i, body, isResponse);
      assert rest[..|rest| - 1] == chain[..n][..i] + chain[..n][i + 1..];
      assert rest[|rest| - 1] == chain[n];
      LastAdds(rest, body, isResponse);
    }
  }

  lemma LastAdds<V>(chain: seq<Method<V>>, body: Body<V>, isResponse: bool)
    requires chain != []
    ensures var front, last := chain[..|chain| - 1], chain[|chain| - 1];
            && Entries(chain, body, isResponse) ==
               Entries(front, body, isResponse) + EntryBytes(last, body, isResponse)
            && |Written(chain, body, isResponse)| ==
               |Written(front, body, isResponse)| + (if WillSerialize(last, body, isResponse) then 1 else 0)
            && FirstFailure(chain, body, isResponse) ==
               if FirstFailure(front, body, isResponse).Some? then FirstFailure(front, body, isResponse)
                 else EntryFailure(last, body, isResponse)
  {
    hide WillSerialize, EntryBytes, EntryFailure;
  }

  // ---------- Failures ----------

  /** The exception of a method's encoder, when its params, or its result, travel. */
  ghost function ThrownFor<V>(m: Method<V>, body: Body<V>, isResponse: bool): Option<Failure> {
    if isResponse then if ResultTravels(m, body) then m.returnJit.toBinary.value(body[m.id]).thrown else None
    else if ParamsTravel(m, body) then m.paramsJit.toBinary.value(body[m.id]).thrown else None
  }

  ghost predicate ThrowsFirst<V>(chain: seq<Method<V>>, body: Body<V>, isResponse: bool, i: int) {
    && 0 <= i < |chain| && ThrownFor(chain[i], body, isResponse).Some?
    && forall j :: 0 <= j < i ==> ThrownFor(chain[j], body, isResponse).None?
  }

  /** An envelope fails with the exception of the first method whose encoder throws, if there is one. */
  lemma FailsWithTheFirst<V>(chain: seq<Method<V>>, body: Body<V>, isResponse: bool)
    ensures FirstFailure(chain, body, isResponse).None? ==>
              forall i :: 0 <= i < |chain| ==> ThrownFor(chain[i], body, isResponse).None?
    ensures forall i :: ThrowsFirst(chain, body, isResponse, i) ==>
              FirstFailure(chain, body, isResponse) == ThrownFor(chain[i], body, isResponse)
  {
    ReservedIdIsNamed();
    FirstFailureIs(chain, body, isResponse);
    forall i | 0 <= i < |chain|
      ensures EntryFailure(chain[i], body, isResponse) == ThrownFor(chain[i], body, isResponse) {
    }
    hide EntryFailure, ThrownFor, FirstFailure;
  }

  ghost predicate FailsFirst<V>(chain: seq<Method<V>>, body: Body<V>, isResponse: bool, i: int) {
    && 0 <= i < |chain| && EntryFailure(chain[i], body, isResponse).Some?
    && forall j :: 0 <= j < i ==> EntryFailure(chain[j], body, isResponse).None?
  }

  lemma {:induction false} FirstFailureIs<V>(chain: seq<Method<V>>, body: Body<V>, isResponse: bool)
    ensures var first := FirstFailure(chain, body, isResponse);
            if first.Some? then
              exists i :: FailsFirst(chain, body, isResponse, i) && first == EntryFailure(chain[i], body, isResponse)
            else forall i :: 0 <= i < |chain| ==> EntryFailure(chain[i], body, isResponse).None?
  {
    hide EntryFailure;
    if chain != [] {
      var n := |chain| - 1;
      FirstFailureIs(chain[..n], body, isResponse);
      if FirstFailure(chain[..n], body, isResponse).Some? {
        var i :| FailsFirst(chain[..n], body, isResponse, i)
                 && FirstFailure(chain[..n], body, isResponse) == EntryFailure(chain[..n][i], body, isResponse);
        assert FailsFirst(chain, body, isResponse, i);
      } else if EntryFailure(chain[n], body, isResponse).Some? {
        assert FailsFirst(chain, body, isResponse, n);
      }
    }
  }

  /** A failure of the growing encode names the side it was on, unless the encoder threw a protocol error. */
  lemma WrappedErrorNamesTheSide<V>(
    t: SS.Tracked<JsString>, chain: seq<Method<V>>, body: Body<V>, isResponse: bool, opts: BinaryOptions)
    requires FirstFailure(chain, body, isResponse).Some? && !opts.pool.enabled
    ensures var failure := FirstFailure(chain, body, isResponse).value;
            Surfaced(t, chain, body, isResponse, opts) ==
              match failure
              case RpcFailure(_) => failure
              case RawFailure(_) =>
                RpcFailure(if isResponse then "binary-response-Serialization-error"
                           else "binary-request-Serialization-error")
  {
  }

  // ---------- What arrives ----------

  /** The receiver knows the method as it is, its codec undoes itself and does not throw, and its id is well formed. */
  ghost predicate Understood<V(!new)>(
    m: Method<V>, codec: Codec<V>, body: Body<V>, registry: map<JsString, Method<V>>)
    requires m.id in body && codec.toBinary.Some?
  {
    && m.id in registry && registry[m.id] == m && IsWellFormed(m.id)
    && Inverts(codec) && codec.toBinary.value(body[m.id]).thrown.None?
  }

  /** Reading a request gives back the value of each method whose params travel, and nothing else. */
  lemma RequestArrives<V(!new)>(chain: seq<Method<V>>, body: Body<V>, registry: map<JsString, Method<V>>)
    requires |chain| < 0x1_0000_0000
    requires forall m :: m in chain && ParamsTravel(m, body) ==> Understood(m, m.paramsJit, body, registry)
    ensures var read := ReadBody(Envelope(chain, body, false), registry, false);
            && read.Ok?
            && (forall id :: id in read.value <==> exists m :: m in chain && m.id == id && ParamsTravel(m, body))
            && forall id :: id in read.value ==> id in body && read.value[id] == body[id]
  {
    ReservedIdIsNamed();
    forall m | m in chain ensures WillSerialize(m, body, false) <==> ParamsTravel(m, body) { }
    hide ParamsTravel, Envelope;
    Arrives(chain, body, registry, false);
  }

  /** Reading a response gives back the result of each method that returns data and has one, and nothing else. */
  lemma ResponseArrives<V(!new)>(chain: seq<Method<V>>, body: Body<V>, registry: map<JsString, Method<V>>)
    requires |chain| < 0x1_0000_0000
    requires forall m :: m in chain && ResultTravels(m, body) ==> Understood(m, m.returnJit, body, registry)
    ensures var read := ReadBody(Envelope(chain, body, true), registry, true);
            && read.Ok?
            && (forall id :: id in read.value <==> exists m :: m in chain && m.id == id && ResultTravels(m, body))
            && forall id :: id in read.value ==> id in body && read.value[id] == body[id]
  {
    ReservedIdIsNamed();
    forall m | m in chain ensures WillSerialize(m, body, true) <==> ResultTravels(m, body) { }
    hide ResultTravels, Envelope;
    Arrives(chain, body, registry, true);
  }

  lemma Arrives<V(!new)>(chain: seq<Method<V>>, body: Body<V>, registry: map<JsString, Method<V>>, isResponse: bool)
    requires |chain| < 0x1_0000_0000
    requires forall m :: m in chain && WillSerialize(m, body, isResponse) ==>
               Understood(m, if isResponse then m.returnJit else m.paramsJit, body, registry)
    ensures var read := ReadBody(Envelope(chain, body, isResponse), registry, isResponse);
            && read.Ok?
            && (forall id :: id in read.value <==>
                  exists m :: m in chain && m.id == id && WillSerialize(m, body, isResponse))
            && forall id :: id in read.value ==> id in body && read.value[id] == body[id]
  {
    hide Inverts, IsWellFormed, Envelope, ReadBody, Delivered, FirstFailure, Written, Readable, Understood;
    AllUnderstood(chain, body, registry, isResponse);
    FewAreWritten(chain, body, isResponse);
    EnvelopeRoundTrip(chain, body, registry, isResponse);
    DeliveredIsWrittenPart(chain, body, isResponse);
    assert forall i :: 0 <= i < |chain| ==> chain[i] in chain;
    forall m | m in chain && WillSerialize(m, body, isResponse) ensures m.id in Delivered(chain, body, isResponse) {
      var i :| 0 <= i < |chain| && chain[i] == m;
    }
  }

  lemma {:induction false} FewAreWritten<V>(chain: seq<Method<V>>, body: Body<V>, isResponse: bool)
    ensures |Written(chain, body, isResponse)| <= |chain|
  {
    if chain != [] { FewAreWritten(chain[..|chain| - 1], body, isResponse); }
  }

  // ---------- On the wire ----------

  /** The four bytes in front are the number of entries, the least significant byte first. */
  lemma HeaderIsLittleEndian<V>(chain: seq<Method<V>>, body: Body<V>, isResponse: bool)
    requires |chain| < 0x1_0000_0000
    ensures var e := Envelope(chain, body, isResponse);
            && 4 <= |e|
            && e[0] as int + 0x100 * e[1] as int + 0x10000 * e[2] as int + 0x1000000 * e[3] as int ==
                 |Written(chain, body, isResponse)|
  {
    hide Written, Entries;
    FewAreWritten(chain, body, isResponse);
    Uint32RoundTrip(|Written(chain, body, isResponse)|, Entries(chain, body, isResponse));
  }

  /** A method that travels adds one entry at the end: the length of its id, the id, and what its encoder writes. */
  lemma EntryIsAppended<V>(chain: seq<Method<V>>, m: Method<V>, body: Body<V>, isResponse: bool)
    requires if isResponse then ResultTravels(m, body) else ParamsTravel(m, body)
    ensures var codec := if isResponse then m.returnJit else m.paramsJit;
            Envelope(chain + [m], body, isResponse)[4..] ==
            Envelope(chain, body, isResponse)[4..]
              + (Leb128(|Utf8(m.id)|) + Utf8(m.id) + AllBytes(codec.toBinary.value(body[m.id]).writes))
    ensures |Written(chain + [m], body, isResponse)| == |Written(chain, body, isResponse)| + 1
  {
    ReservedIdIsNamed();
    assert WillSerialize(m, body, isResponse);
    KeyThenValue(m.id, EncodingOf(m, body, isResponse).writes);
    hide Entries, Written, WillSerialize, FirstFailure, EntryFailure, Leb128, Utf8, AllBytes, Uint32;
    LastAdds(chain + [m], body, isResponse);
    assert (chain + [m])[..|chain|] == chain;
  }

  lemma NothingOnTheWire<V>(body: Body<V>, isResponse: bool)
    ensures Envelope<V>([], body, isResponse) == [0, 0, 0, 0]
  {
  }

  /** Why a reader gives up at an entry, if it does: `value` is what follows the id. */
  function RefusalOf<V>(
    id: JsString, value: seq<Byte>, registry: map<JsString, Method<V>>, isResponse: bool): Option<DecodeError>
  {
    if id !in registry then Some(UnknownMethod(id))
    else
      var codec := if isResponse then registry[id].returnJit else registry[id].paramsJit;
      if codec.fromBinary.None? then Some(MissingFromBinary(id))
      else if codec.fromBinary.value(value).None? then Some(MethodFailed(id))
      else None
  }

  /** A reader gives up at the first entry it cannot read and says why: an id it does not know, a method without a
      decoder for this side, or a decoder that refuses. */
  lemma ReadingStopsAt<V(!new)>(
    before: seq<Method<V>>, body: Body<V>, registry: map<JsString, Method<V>>, isResponse: bool, id: JsString,
    value: seq<Byte>, more: nat)
    requires |before| + 1 + more < 0x1_0000_0000 && IsWellFormed(id)
    requires forall m :: m in before && WillSerialize(m, body, isResponse) ==>
               Understood(m, if isResponse then m.returnJit else m.paramsJit, body, registry)
    requires RefusalOf(id, value, registry, isResponse).Some?
    ensures var count := |Written(before, body, isResponse)| + 1 + more;
            ReadBody(Uint32(count) + Entries(before, body, isResponse) + Bytes(Text(id)) + value, registry, isResponse)
              == Err(RefusalOf(id, value, registry, isResponse).value)
  {
    hide Entries, Written, Readable, ReadItem, Delivered, Uint32, ReadUint32, Bytes, Understood, WillSerialize;
    var entries, key := Entries(before, body, isResponse), Bytes(Text(id));
    var count := |Written(before, body, isResponse)| + 1 + more;
    FewAreWritten(before, body, isResponse);
    Uint32RoundTrip(count, entries + key + value);
    var b := Uint32(count) + entries + key + value;
    assert b == Uint32(count) + (entries + key + value);
    assert b[4..] == entries + (key + value);
    AllUnderstood(before, body, registry, isResponse);
    ItemsRoundTrip(before, body, registry, isResponse, key + value, 1 + more, map[]);
    RefusedItem(id, value, registry, isResponse);
  }

  lemma AllUnderstood<V(!new)>(
    chain: seq<Method<V>>, body: Body<V>, registry: map<JsString, Method<V>>, isResponse: bool)
    requires forall m :: m in chain && WillSerialize(m, body, isResponse) ==>
               Understood(m, if isResponse then m.returnJit else m.paramsJit, body, registry)
    ensures Readable(chain, body, registry, isResponse) && FirstFailure(chain, body, isResponse).None?
  {
    hide Inverts, IsWellFormed, FirstFailure;
    FirstFailureIs(chain, body, isResponse);
    forall i | 0 <= i < |chain| ensures EntryFailure(chain[i], body, isResponse).None? {
      assert chain[i] in chain;
    }
    assert forall i :: 0 <= i < |chain| ==> chain[i] in chain;
  }

  lemma RefusedItem<V>(id: JsString, value: seq<Byte>, registry: map<JsString, Method<V>>, isResponse: bool)
    requires IsWellFormed(id) && RefusalOf(id, value, registry, isResponse).Some?
    ensures ReadItem(Bytes(Text(id)) + value, registry, isResponse) ==
            Err(RefusalOf(id, value, registry, isResponse).value)
  {
    hide Bytes, ReadString;
    StringRoundTrip(id, value);
    ScrubIsIdentityIff(id);
    assert (Bytes(Text(id)) + value)[|Bytes(Text(id))|..] == value;
  }
}
