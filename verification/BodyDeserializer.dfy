/** Reading an envelope back into the body it was written from. */
module BodyDeserializer {
  import opened Basics
  import opened TextEncoding
  import opened DataView
  import opened BodySerializer

  datatype DecodeError =
    | Malformed
    | UnknownMethod(key: JsString)
    | MissingFromBinary(key: JsString)
    | MethodFailed(key: JsString)

  /** A length-prefixed string at the front of `b`, and the bytes it takes. */
  function ReadString(b: seq<Byte>): (r: Option<(JsString, nat)>)
    ensures r.Some? ==> r.value.1 <= |b|
  {
    match ReadLeb128(b)
    case None => None
    case Some((len, width)) =>
      if |b| < width + len then None
      else match DecodeUtf8(b[width..width + len])
        case None => None
        case Some(s) => Some((s, width + len))
  }

  lemma StringRoundTrip(s: JsString, rest: seq<Byte>)
    ensures ReadString(Bytes(Text(s)) + rest) == Some((Scrub(s), |Bytes(Text(s))|))
  {
    hide Utf8, DecodeUtf8, Leb128, ReadLeb128, Scrub;
    var utf8 := Utf8(s);
    var prefix := Leb128(|utf8|);
    Leb128RoundTrip(|utf8|, utf8 + rest);
    assert Bytes(Text(s)) + rest == prefix + (utf8 + rest);
    assert (prefix + (utf8 + rest))[|prefix|..|prefix| + |utf8|] == utf8;
    Utf8RoundTrip(s);
  }

  /** Runs the method's decoder at the front of `b`. */
  function ReadValue<V>(
    key: JsString, m: Method<V>, b: seq<Byte>, isResponse: bool): (r: Result<(V, nat), DecodeError>)
  {
    var fromBinary := CodecOf(m, isResponse).fromBinary;
    if fromBinary.None? then Err(MissingFromBinary(key))
    else match fromBinary.value(b)
      case None => Err(MethodFailed(key))
      case Some((v, len)) => if len <= |b| then Ok((v, len)) else Err(MethodFailed(key))
  }

  /** One (key, value) item at the front of `b`. */
  function ReadItem<V>(b: seq<Byte>, registry: map<JsString, Method<V>>, isResponse: bool)
    : (r: Result<(JsString, V, nat), DecodeError>)
    ensures r.Ok? ==> r.value.2 <= |b|
  {
    match ReadString(b)
    case None => Err(Malformed)
    case Some((key, keyLen)) =>
      if key !in registry then Err(UnknownMethod(key))
      else match ReadValue(key, registry[key], b[keyLen..], isResponse)
        case Err(e) => Err(e)
        case Ok((v, len)) => Ok((key, v, keyLen + len))
  }

  function ReadItems<V>(b: seq<Byte>, n: nat, registry: map<JsString, Method<V>>, isResponse: bool, body: Body<V>)
    : Result<Body<V>, DecodeError>
  {
    if n == 0 then Ok(body)
    else match ReadItem(b, registry, isResponse)
      case Err(e) => Err(e)
      case Ok((key, v, len)) => ReadItems(b[len..], n - 1, registry, isResponse, body[key := v])
  }

  function ReadBody<V>(
    b: seq<Byte>, registry: map<JsString, Method<V>>, isResponse: bool): Result<Body<V>, DecodeError>
  {
    if |b| < 4 then Err(Malformed) else ReadItems(b[4..], ReadUint32(b), registry, isResponse, map[])
  }

  /** Walks the buffer item by item, filling the body record. */
  method DeserializeBinaryBody<V>(buffer: seq<Byte>, registry: map<JsString, Method<V>>, isResponse: bool)
    returns (r: Result<Body<V>, DecodeError>)
    ensures r == ReadBody(buffer, registry, isResponse)
  {
    hide ReadItem;
    if |buffer| < 4 { return Err(Malformed); }
    var body: Body<V> := map[];
    var itemsLength := ReadUint32(buffer);
    var index := 4;
    for i := 0 to itemsLength
      invariant 4 <= index <= |buffer|
      invariant ReadItems(buffer[index..], itemsLength - i, registry, isResponse, body) ==
          ReadBody(buffer, registry, isResponse)
    {
      var item := ReadItem(buffer[index..], registry, isResponse);
      if item.Err? { return Err(item.error); }
      var (key, value, len) := item.value;
      assert buffer[index..][len..] == buffer[index + len..];
      body := body[key := value];
      index := index + len;
    }
    r := Ok(body);
  }

  // ---------- The round trip ----------

  /** Decoding undoes encoding and consumes exactly its bytes. */
  ghost predicate Inverts<V(!new)>(c: Codec<V>) {
    && c.toBinary.Some? && c.fromBinary.Some?
    && forall v: V, rest :: c.toBinary.value(v).thrown.None? ==>
         c.fromBinary.value(AllBytes(c.toBinary.value(v).writes) + rest) ==
           Some((v, |AllBytes(c.toBinary.value(v).writes)|))
  }

  /** The record the envelope carries. */
  function Delivered<V>(chain: seq<Method<V>>, body: Body<V>, isResponse: bool): Body<V> {
    if chain == [] then map[]
    else
      var m := chain[|chain| - 1];
      var before := Delivered(chain[..|chain| - 1], body, isResponse);
      if WillSerialize(m, body, isResponse) then before[m.id := body[m.id]] else before
  }

  lemma {:induction false} DeliveredIsWrittenPart<V>(chain: seq<Method<V>>, body: Body<V>, isResponse: bool)
    ensures forall k :: k in Delivered(chain, body, isResponse) <==>
              k in body && exists i :: 0 <= i < |chain| && chain[i].id == k && WillSerialize(chain[i], body, isResponse)
    ensures forall k :: k in Delivered(chain, body, isResponse) ==> Delivered(chain, body, isResponse)[k] == body[k]
  {
    if chain != [] {
      DeliveredIsWrittenPart(chain[..|chain| - 1], body, isResponse);
    }
  }

  /** Every written method is registered as it is, decodes what it encodes, and has a well-formed id. */
  ghost predicate Readable<V(!new)>(
    chain: seq<Method<V>>, body: Body<V>, registry: map<JsString, Method<V>>, isResponse: bool)
  {
    forall i :: 0 <= i < |chain| && WillSerialize(chain[i], body, isResponse) ==>
      && chain[i].id in registry && registry[chain[i].id] == chain[i]
      && Inverts(CodecOf(chain[i], isResponse)) && IsWellFormed(chain[i].id)
  }

  lemma ItemRoundTrip<V(!new)>(
    m: Method<V>, body: Body<V>, registry: map<JsString, Method<V>>, isResponse: bool, rest: seq<Byte>)
    requires WillSerialize(m, body, isResponse) && EntryFailure(m, body, isResponse).None?
    requires m.id in registry && registry[m.id] == m && Inverts(CodecOf(m, isResponse)) && IsWellFormed(m.id)
    ensures ReadItem(EntryBytes(m, body, isResponse) + rest, registry, isResponse) ==
            Ok((m.id, body[m.id], |EntryBytes(m, body, isResponse)|))
  {
    hide Bytes, AllBytes, ReadString;
    var v, value := body[m.id], AllBytes(EncodingOf(m, body, isResponse).writes);
    var key := Bytes(Text(m.id));
    KeyThenValue(m.id, EncodingOf(m, body, isResponse).writes);
    StringRoundTrip(m.id, value + rest);
    ScrubIsIdentityIff(m.id);
    assert CodecOf(m, isResponse).fromBinary.value(value + rest) == Some((v, |value|));
    assert EntryBytes(m, body, isResponse) == key + value;
    assert EntryBytes(m, body, isResponse) + rest == key + (value + rest);
    assert (key + (value + rest))[|key|..] == value + rest;
  }

  /** Reading the entries of `chain` off the front of `rest` delivers exactly their values. */
  ghost predicate Reads<V>(
    chain: seq<Method<V>>, body: Body<V>, registry: map<JsString, Method<V>>, isResponse: bool, rest: seq<Byte>,
    more: nat, read: Body<V>)
  {
    ReadItems(
      Entries(chain, body, isResponse) + rest, |Written(chain, body, isResponse)| + more, registry, isResponse, read)
    == ReadItems(rest, more, registry, isResponse, read + Delivered(chain, body, isResponse))
  }

  lemma {:induction false} ItemsRoundTrip<V(!new)>(
    chain: seq<Method<V>>, body: Body<V>, registry: map<JsString, Method<V>>, isResponse: bool, rest: seq<Byte>,
    more: nat, read: Body<V>)
    requires Readable(chain, body, registry, isResponse) && FirstFailure(chain, body, isResponse).None?
    ensures Reads(chain, body, registry, isResponse, rest, more, read)
  {
    if chain == [] {
      assert Entries(chain, body, isResponse) + rest == rest;
      assert read + Delivered(chain, body, isResponse) == read;
    } else {
      hide Reads, Readable, FirstFailure, WillSerialize, EntryBytes;
      var n, m := |chain| - 1, chain[|chain| - 1];
      LastIsReadable(chain, body, registry, isResponse);
      if WillSerialize(m, body, isResponse) {
        ItemsRoundTrip(chain[..n], body, registry, isResponse, EntryBytes(m, body, isResponse) + rest, more + 1, read);
        ItemRoundTrip(m, body, registry, isResponse, rest);
        WrittenEntryReads(chain, body, registry, isResponse, rest, more, read);
      } else {
        ItemsRoundTrip(chain[..n], body, registry, isResponse, rest, more, read);
        SkippedEntryReads(chain, body, registry, isResponse, rest, more, read);
      }
    }
  }

  lemma WrittenEntryReads<V>(
    chain: seq<Method<V>>, body: Body<V>, registry: map<JsString, Method<V>>, isResponse: bool, rest: seq<Byte>,
    more: nat, read: Body<V>)
    requires chain != [] && WillSerialize(chain[|chain| - 1], body, isResponse)
    requires var n, m := |chain| - 1, chain[|chain| - 1];
             && Reads(chain[..n], body, registry, isResponse, EntryBytes(m, body, isResponse) + rest, more + 1, read)
             && ReadItem(EntryBytes(m, body, isResponse) + rest, registry, isResponse)
                == Ok((m.id, body[m.id], |EntryBytes(m, body, isResponse)|))
    ensures Reads(chain, body, registry, isResponse, rest, more, read)
  {
    hide EntryBytes, ReadItem, ReadItems, Entries, Delivered, Written;
    var n, m := |chain| - 1, chain[|chain| - 1];
    var before := Delivered(chain[..n], body, isResponse);
    LastEntry(chain, body, isResponse, rest);
    ReadItemsStep(EntryBytes(m, body, isResponse), rest, more, registry, isResponse, read + before, m.id, body[m.id]);
    assert read + before[m.id := body[m.id]] == (read + before)[m.id := body[m.id]];
  }

  lemma SkippedEntryReads<V>(
    chain: seq<Method<V>>, body: Body<V>, registry: map<JsString, Method<V>>, isResponse: bool, rest: seq<Byte>,
    more: nat, read: Body<V>)
    requires chain != [] && !WillSerialize(chain[|chain| - 1], body, isResponse)
    requires Reads(chain[..|chain| - 1], body, registry, isResponse, rest, more, read)
    ensures Reads(chain, body, registry, isResponse, rest, more, read)
  {
    hide ReadItems, Entries, Delivered, Written;
    LastEntry(chain, body, isResponse, rest);
    SkippedEntryIsEmpty(chain[|chain| - 1], body, isResponse);
    assert EntryBytes(chain[|chain| - 1], body, isResponse) + rest == rest;
  }

  lemma LastIsReadable<V(!new)>(
    chain: seq<Method<V>>, body: Body<V>, registry: map<JsString, Method<V>>, isResponse: bool)
    requires Readable(chain, body, registry, isResponse) && FirstFailure(chain, body, isResponse).None? && chain != []
    ensures var n, m := |chain| - 1, chain[|chain| - 1];
            && Readable(chain[..n], body, registry, isResponse) && FirstFailure(chain[..n], body, isResponse).None?
            && EntryFailure(m, body, isResponse).None?
            && (WillSerialize(m, body, isResponse) ==>
                  m.id in registry && registry[m.id] == m && Inverts(CodecOf(m, isResponse)) && IsWellFormed(m.id))
  {
    hide Inverts, IsWellFormed;
    var n := |chain| - 1;
    assert forall i :: 0 <= i < n ==> chain[..n][i] == chain[i];
  }

  lemma LastEntry<V>(chain: seq<Method<V>>, body: Body<V>, isResponse: bool, rest: seq<Byte>)
    requires chain != []
    ensures var n, m := |chain| - 1, chain[|chain| - 1];
            && Entries(chain, body, isResponse) + rest ==
               Entries(chain[..n], body, isResponse) + (EntryBytes(m, body, isResponse) + rest)
            && (WillSerialize(m, body, isResponse) ==>
                  && |Written(chain, body, isResponse)| == |Written(chain[..n], body, isResponse)| + 1
                  && Delivered(chain, body, isResponse) == Delivered(chain[..n], body, isResponse)[m.id := body[m.id]])
            && (!WillSerialize(m, body, isResponse) ==>
                  && |Written(chain, body, isResponse)| == |Written(chain[..n], body, isResponse)|
                  && Delivered(chain, body, isResponse) == Delivered(chain[..n], body, isResponse))
  {
    hide EntryBytes;
  }

  lemma ReadItemsStep<V>(
    entry: seq<Byte>, rest: seq<Byte>, more: nat, registry: map<JsString, Method<V>>, isResponse: bool, read: Body<V>,
    key: JsString, v: V)
    requires ReadItem(entry + rest, registry, isResponse) == Ok((key, v, |entry|))
    ensures ReadItems(entry + rest, more + 1, registry, isResponse, read) ==
            ReadItems(rest, more, registry, isResponse, read[key := v])
  {
    hide ReadItem;
    assert (entry + rest)[|entry|..] == rest;
  }

  /** Deserializing what was serialized gives each written id its body value, and nothing else. */
  lemma EnvelopeRoundTrip<V(!new)>(
    chain: seq<Method<V>>, body: Body<V>, registry: map<JsString, Method<V>>, isResponse: bool)
    requires Readable(chain, body, registry, isResponse) && FirstFailure(chain, body, isResponse).None?
    requires |Written(chain, body, isResponse)| < 0x1_0000_0000
    ensures ReadBody(Envelope(chain, body, isResponse), registry, isResponse) == Ok(Delivered(chain, body, isResponse))
    ensures ReadUint32(Envelope(chain, body, isResponse)) == |Written(chain, body, isResponse)|
  {
    hide Entries, Written, FirstFailure, Readable, ReadItem, Delivered, Uint32, ReadUint32;
    var entries := Entries(chain, body, isResponse);
    Uint32RoundTrip(|Written(chain, body, isResponse)|, entries);
    assert Envelope(chain, body, isResponse)[4..] == entries;
    assert entries + [] == entries;
    ItemsRoundTrip(chain, body, registry, isResponse, [], 0, map[]);
    assert map[] + Delivered(chain, body, isResponse) == Delivered(chain, body, isResponse);
  }
}
