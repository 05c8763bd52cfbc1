/** The multi-method envelope and the choice of buffer it is written into. */
module BodySerializer {
  import opened Basics
  import opened TextEncoding
  import opened DataView
  import BP = BufferPool
  import SS = SizeStats

  // ---------- Methods and their compiled encoders ----------

  datatype Failure = RpcFailure(code: string) | RawFailure(message: string)

  /** What running a compiled encoder on a value does: the writes it makes, then an exception or none. */
  datatype Encoding = Encoding(writes: seq<Write>, thrown: Option<Failure>)

  datatype Codec<!V> = Codec(
    toBinary: Option<V -> Encoding>,
    isNoop: bool,
    fromBinary: Option<seq<Byte> -> Option<(V, nat)>>)

  datatype Method<!V> = Method(
    id: JsString,
    hasReturnData: bool,
    paramsJit: Codec<V>,
    returnJit: Codec<V>,
    paramsEstimate: Option<nat>,
    returnEstimate: Option<nat>)

  type Body<V> = map<JsString, V>

  /** '@thrownErrors' */
  const THROWN_ERRORS: JsString :=
    [0x40, 0x74, 0x68, 0x72, 0x6f, 0x77, 0x6e, 0x45, 0x72, 0x72, 0x6f, 0x72, 0x73]

  function CodecOf<V>(m: Method<V>, isResponse: bool): Codec<V> {
    if isResponse then m.returnJit else m.paramsJit
  }

  /** Whether a method contributes bytes to the envelope. */
  predicate WillSerialize<V>(m: Method<V>, body: Body<V>, isResponse: bool) {
    && CodecOf(m, isResponse).toBinary.Some? && !CodecOf(m, isResponse).isNoop
    && m.id != THROWN_ERRORS
    && (isResponse ==> m.hasReturnData)
    && m.id in body
  }

  function EncodingOf<V>(m: Method<V>, body: Body<V>, isResponse: bool): Encoding
    requires WillSerialize(m, body, isResponse)
  {
    CodecOf(m, isResponse).toBinary.value(body[m.id])
  }

  // ---------- The reference encoding ----------

  /** One entry: the key, then whatever the encoder writes. */
  function EntryWrites<V>(m: Method<V>, body: Body<V>, isResponse: bool): seq<Write>
    requires WillSerialize(m, body, isResponse)
  {
    [Text(m.id)] + EncodingOf(m, body, isResponse).writes
  }

  function EntryBytes<V>(m: Method<V>, body: Body<V>, isResponse: bool): seq<Byte> {
    if WillSerialize(m, body, isResponse) then AllBytes(EntryWrites(m, body, isResponse)) else []
  }

  function EntryMeasured<V>(m: Method<V>, body: Body<V>, isResponse: bool): nat {
    if WillSerialize(m, body, isResponse) then AllMeasured(EntryWrites(m, body, isResponse)) else 0
  }

  /** The methods of the chain that contribute an entry. */
  function Written<V>(chain: seq<Method<V>>, body: Body<V>, isResponse: bool): seq<Method<V>> {
    if chain == [] then []
    else
      var last := chain[|chain| - 1];
      Written(chain[..|chain| - 1], body, isResponse) + if WillSerialize(last, body, isResponse) then [last] else []
  }

  function Entries<V>(chain: seq<Method<V>>, body: Body<V>, isResponse: bool): seq<Byte> {
    if chain == [] then []
    else Entries(chain[..|chain| - 1], body, isResponse) + EntryBytes(chain[|chain| - 1], body, isResponse)
  }

  /** What the growing-buffer encode puts on the wire. */
  function Envelope<V>(chain: seq<Method<V>>, body: Body<V>, isResponse: bool): seq<Byte> {
    Uint32(|Written(chain, body, isResponse)|) + Entries(chain, body, isResponse)
  }

  function MeasuredEntries<V>(chain: seq<Method<V>>, body: Body<V>, isResponse: bool): nat {
    if chain == [] then 0
    else MeasuredEntries(chain[..|chain| - 1], body, isResponse) + EntryMeasured(chain[|chain| - 1], body, isResponse)
  }

  function EntryFailure<V>(m: Method<V>, body: Body<V>, isResponse: bool): Option<Failure> {
    if WillSerialize(m, body, isResponse) then EncodingOf(m, body, isResponse).thrown else None
  }

  /** The exception of the first encoder that throws. */
  function FirstFailure<V>(chain: seq<Method<V>>, body: Body<V>, isResponse: bool): Option<Failure> {
    if chain == [] then None
    else
      var before := FirstFailure(chain[..|chain| - 1], body, isResponse);
      if before.Some? then before else EntryFailure(chain[|chain| - 1], body, isResponse)
  }

  /** The observations a completed write leaves in the size statistics. */
  ghost function RecordEntries<V>(
    t: SS.Tracked<JsString>, chain: seq<Method<V>>, body: Body<V>, isResponse: bool, ringSize: nat, maxKeys: nat)
    : SS.Tracked<JsString>
  {
    if chain == [] then t
    else
      var before := RecordEntries(t, chain[..|chain| - 1], body, isResponse, ringSize, maxKeys);
      RecordEntry(before, chain[|chain| - 1], body, isResponse, ringSize, maxKeys)
  }

  ghost function RecordEntry<V>(
    t: SS.Tracked<JsString>, m: Method<V>, body: Body<V>, isResponse: bool, ringSize: nat, maxKeys: nat)
    : SS.Tracked<JsString>
  {
    if WillSerialize(m, body, isResponse) then
      SS.Recorded(t, m.id, |EntryBytes(m, body, isResponse)|, ringSize, maxKeys)
    else t
  }

  lemma {:induction false} PrefixFits<V>(chain: seq<Method<V>>, n: nat, body: Body<V>, isResponse: bool)
    requires n <= |chain|
    ensures |Entries(chain[..n], body, isResponse)| <= |Entries(chain, body, isResponse)|
    ensures FirstFailure(chain, body, isResponse).None? ==> FirstFailure(chain[..n], body, isResponse).None?
    ensures FirstFailure(chain[..n], body, isResponse).Some? ==>
              FirstFailure(chain, body, isResponse) == FirstFailure(chain[..n], body, isResponse)
    decreases |chain| - n
  {
    if n < |chain| {
      assert chain[..n + 1][..n] == chain[..n];
      PrefixFits(chain, n + 1, body, isResponse);
    } else {
      assert chain[..n] == chain;
    }
  }

  // ---------- Writing ----------

  /** Writes one method's key and value if it contributes; a thrown encoder failure ends the envelope. */
  method SerializeMethod<V>(m: Method<V>, body: Body<V>, s: Serializer, isResponse: bool)
    returns (written: bool, failed: Option<Failure>)
    requires s.Valid()
    modifies s, s.buffer
    ensures s.Valid()
    ensures s.buffer == old(s.buffer) || (s.kind.Growing? && fresh(s.buffer))
    ensures written ==> WillSerialize(m, body, isResponse)
    ensures failed.None? ==> written == WillSerialize(m, body, isResponse)
    ensures !s.kind.Borrowed? ==> failed == EntryFailure(m, body, isResponse)
    ensures failed.None? ==> EntryFailure(m, body, isResponse).None?
    ensures s.kind.Sizing? && failed.None? ==>
              s.index == old(s.index) + EntryMeasured(m, body, isResponse) && s.buffer[..] == old(s.buffer[..])
    ensures !s.kind.Sizing? && failed.None? ==> s.index == old(s.index) + |EntryBytes(m, body, isResponse)|
    ensures (s.kind.Borrowed? && old(s.index) + |EntryBytes(m, body, isResponse)| <= s.buffer.Length
             && EntryFailure(m, body, isResponse).None?) ==> failed.None?
    ensures !s.kind.Sizing? && failed.None? && s.index <= s.buffer.Length ==>
              && old(s.index <= s.buffer.Length)
              && s.buffer[..s.index] == old(s.buffer[..s.index]) + EntryBytes(m, body, isResponse)
  {
    hide Bytes, Measured, AllBytes, AllMeasured;
    written, failed := false, None;
    if !WillSerialize(m, body, isResponse) { return; }
    var encoding := EncodingOf(m, body, isResponse);
    KeyThenValue(m.id, encoding.writes);
    var threw := s.Emit(Text(m.id));
    if !threw { threw := s.EmitAll(encoding.writes); }
    if threw { return false, Some(RawFailure("RangeError")); }
    if encoding.thrown.Some? { return false, encoding.thrown; }
    written := true;
  }

  lemma {:induction false} KeyThenValue(key: JsString, ws: seq<Write>)
    ensures AllBytes([Text(key)] + ws) == Bytes(Text(key)) + AllBytes(ws)
    ensures AllMeasured([Text(key)] + ws) == Measured(Text(key)) + AllMeasured(ws)
  {
    hide Bytes, Measured;
    var all := [Text(key)] + ws;
    if ws == [] {
      assert all[..0] == [];
    } else {
      var front := ws[..|ws| - 1];
      assert all[..|all| - 1] == [Text(key)] + front;
      KeyThenValue(key, front);
      assert AllBytes(all) == AllBytes([Text(key)] + front) + Bytes(ws[|ws| - 1]);
    }
  }

  const ENVELOPE_HEADER_BYTES: nat := 4

  /** The serializer stands right after the entries of the `done` methods. */
  ghost predicate Progress<V>(s: Serializer, done: seq<Method<V>>, body: Body<V>, isResponse: bool)
    reads s, s.buffer
  {
    && s.Valid()
    && FirstFailure(done, body, isResponse).None?
    && (if s.kind.Sizing? then s.index == ENVELOPE_HEADER_BYTES + MeasuredEntries(done, body, isResponse)
        else s.index == ENVELOPE_HEADER_BYTES + |Entries(done, body, isResponse)|
             && (s.index <= s.buffer.Length ==>
                   s.buffer[ENVELOPE_HEADER_BYTES..s.index] == Entries(done, body, isResponse)))
  }

  /** Whether the next method can still be written without trouble. */
  ghost predicate NextFits<V>(s: Serializer, done: seq<Method<V>>, m: Method<V>, body: Body<V>, isResponse: bool)
    reads s
  {
    && EntryFailure(m, body, isResponse).None?
    && (s.kind.Borrowed? ==>
          ENVELOPE_HEADER_BYTES + |Entries(done, body, isResponse)| +
            |EntryBytes(m, body, isResponse)| <= s.buffer.Length)
  }

  method SerializeNext<V>(s: Serializer, m: Method<V>, ghost done: seq<Method<V>>, body: Body<V>, isResponse: bool)
    returns (written: bool, failed: Option<Failure>)
    requires Progress(s, done, body, isResponse)
    modifies s, s.buffer
    ensures s.buffer == old(s.buffer) || (s.kind.Growing? && fresh(s.buffer))
    ensures failed.None? ==> written == WillSerialize(m, body, isResponse) && Progress(s, done + [m], body, isResponse)
    ensures failed.None? && !s.kind.Sizing? ==> s.index - old(s.index) == |EntryBytes(m, body, isResponse)|
    ensures s.Valid() && (!s.kind.Borrowed? ==> failed == EntryFailure(m, body, isResponse))
    ensures old(NextFits(s, done, m, body, isResponse)) ==> failed.None?
  {
    hide WillSerialize, EntryBytes, EntryMeasured, EntryFailure;
    assert (done + [m])[..|done|] == done;
    written, failed := SerializeMethod(m, body, s, isResponse);
    if failed.None? && !s.kind.Sizing? && s.index <= s.buffer.Length {
      assert s.buffer[4..s.index] == old(s.buffer[4..s.index]) + EntryBytes(m, body, isResponse) by {
        assert s.buffer[4..s.index] == s.buffer[..s.index][4..];
      }
    }
  }

  ghost predicate Separate(s: Serializer, stats: SS.SizeTable<JsString>)
    reads s, stats
  {
    s as object != stats && s.buffer as object != stats && s !in stats.Repr && s.buffer !in stats.Repr
  }

  /** The serializer holds the finished envelope, as far as its buffer reaches. */
  ghost predicate Finished<V>(s: Serializer, chain: seq<Method<V>>, body: Body<V>, isResponse: bool)
    reads s, s.buffer
  {
    && s.Valid()
    && FirstFailure(chain, body, isResponse).None?
    && (if s.kind.Sizing? then s.index == ENVELOPE_HEADER_BYTES + MeasuredEntries(chain, body, isResponse)
        else s.index == |Envelope(chain, body, isResponse)|
             && (s.index <= s.buffer.Length ==> s.buffer[..s.index] == Envelope(chain, body, isResponse)))
  }

  /** Writes one method's entry and, when asked to, records what it cost. */
  method WriteEntry<V>(
    s: Serializer, m: Method<V>, ghost done: seq<Method<V>>, body: Body<V>, isResponse: bool, record: bool,
    stats: SS.SizeTable<JsString>, ringSize: nat, maxKeys: nat)
    returns (written: bool, failed: Option<Failure>)
    requires Progress(s, done, body, isResponse) && stats.Valid() && Separate(s, stats) && 0 < ringSize
    modifies s, s.buffer, stats, stats.Repr
    ensures s.Valid() && stats.Valid() && Separate(s, stats) && fresh(stats.Repr - old(stats.Repr))
    ensures failed.None? ==> FirstFailure(done + [m], body, isResponse).None?
    ensures s.buffer == old(s.buffer) || (s.kind.Growing? && fresh(s.buffer))
    ensures failed.None? ==> written == WillSerialize(m, body, isResponse) && Progress(s, done + [m], body, isResponse)
    ensures !s.kind.Borrowed? ==> failed == EntryFailure(m, body, isResponse)
    ensures old(NextFits(s, done, m, body, isResponse)) ==> failed.None?
    ensures record && failed.None? && !s.kind.Sizing? ==>
              stats.Model() == RecordEntry(old(stats.Model()), m, body, isResponse, ringSize, maxKeys)
    ensures !record || failed.Some? ==> unchanged(stats) && unchanged(stats.Repr)
  {
    hide WillSerialize, EntryBytes, EntryFailure, EntryMeasured, SS.Recorded, SS.SizeTable.Valid;
    var start := s.index;
    written, failed := SerializeNext(s, m, done, body, isResponse);
    if failed.None? && written && record {
      stats.RecordSize(m.id, s.index - start, ringSize, maxKeys);
    }
  }

  /** Fills in the count once every entry is written. */
  method PatchCount<V>(
    s: Serializer, itemsLength: nat, ghost chain: seq<Method<V>>, ghost body: Body<V>, ghost isResponse: bool)
    returns (threw: bool)
    requires Progress(s, chain, body, isResponse) && itemsLength == |Written(chain, body, isResponse)|
    modifies s.buffer
    ensures s.Valid() && (!threw ==> Finished(s, chain, body, isResponse))
    ensures threw ==> s.kind.Borrowed? && s.buffer.Length < |Envelope(chain, body, isResponse)|
  {
    hide Written, Entries, MeasuredEntries, FirstFailure, Uint32;
    ghost var was := s.buffer[..];
    threw := s.PatchUint32(0, itemsLength);
    if !threw && !s.kind.Sizing? && s.index <= s.buffer.Length {
      PatchedPrefix(was, Uint32(itemsLength), s.index);
      assert s.buffer[..s.index] == s.buffer[..][..s.index];
      assert was[4..s.index] == old(s.buffer[4..s.index]);
    }
  }

  lemma PatchedPrefix(was: seq<Byte>, count: seq<Byte>, index: nat)
    requires |count| == 4 <= index <= |was|
    ensures (was[..0] + count + was[0 + 4..])[..index] == count + was[4..index]
  {
  }

  method ReserveHeader<V>(s: Serializer, ghost chain: seq<Method<V>>, ghost body: Body<V>, ghost isResponse: bool)
    requires s.Valid() && s.index == 0
    modifies s
    ensures Progress(s, chain[..0], body, isResponse)
    ensures s.buffer == old(s.buffer) || (s.kind.Growing? && fresh(s.buffer))
  {
    s.Reserve(ENVELOPE_HEADER_BYTES);
  }

  /** No encoder throws and a buffer that cannot grow is long enough. */
  ghost predicate Fits<V>(kind: Kind, length: nat, chain: seq<Method<V>>, body: Body<V>, isResponse: bool) {
    && FirstFailure(chain, body, isResponse).None?
    && (kind.Borrowed? ==> |Envelope(chain, body, isResponse)| <= length)
  }

  /** The statistics gained the observations of the first methods of the chain, and no others. */
  ghost predicate RecordedPart<V>(
    was: SS.Tracked<JsString>, now: SS.Tracked<JsString>, chain: seq<Method<V>>, body: Body<V>, isResponse: bool,
    ringSize: nat, maxKeys: nat)
  {
    exists n: nat :: n <= |chain| && now == RecordEntries(was, chain[..n], body, isResponse, ringSize, maxKeys)
  }

  lemma RecordedAllIsPart<V>(
    was: SS.Tracked<JsString>, chain: seq<Method<V>>, body: Body<V>, isResponse: bool, ringSize: nat, maxKeys: nat)
    ensures RecordedPart(was, RecordEntries(was, chain, body, isResponse, ringSize, maxKeys), chain, body, isResponse,
              ringSize, maxKeys)
  {
    assert chain[..|chain|] == chain;
  }

  /** The envelope's entries, one after the other; stops at the first failure. */
  method WriteEntries<V>(
    s: Serializer, chain: seq<Method<V>>, body: Body<V>, isResponse: bool, record: bool,
    stats: SS.SizeTable<JsString>, ringSize: nat, maxKeys: nat)
    returns (itemsLength: nat, failed: Option<Failure>)
    requires s.Valid() && Progress(s, chain[..0], body, isResponse) && stats.Valid() && Separate(s, stats)
    requires 0 < ringSize
    modifies s, s.buffer, stats, stats.Repr
    ensures s.Valid() && stats.Valid() && Separate(s, stats) && fresh(stats.Repr - old(stats.Repr))
    ensures s.buffer == old(s.buffer) || (s.kind.Growing? && fresh(s.buffer))
    ensures failed.None? ==> Progress(s, chain, body, isResponse) && itemsLength == |Written(chain, body, isResponse)|
    ensures !s.kind.Borrowed? ==> failed == FirstFailure(chain, body, isResponse)
    ensures Fits(s.kind, old(s.buffer).Length, chain, body, isResponse) ==> failed.None?
    ensures record && failed.None? && !s.kind.Sizing? ==>
              stats.Model() == RecordEntries(old(stats.Model()), chain, body, isResponse, ringSize, maxKeys)
    ensures record && failed.Some? && !s.kind.Sizing? ==>
              RecordedPart(old(stats.Model()), stats.Model(), chain, body, isResponse, ringSize, maxKeys)
    ensures !record ==> unchanged(stats) && unchanged(stats.Repr)
  {
    hide WillSerialize, EntryBytes, EntryFailure, EntryMeasured, RecordEntry, SS.SizeTable.Valid, Progress;
    itemsLength, failed := 0, None;
    var i := 0;
    while i < |chain|
      invariant i <= |chain| && failed.None? && s.Valid() && Progress(s, chain[..i], body, isResponse)
      invariant FirstFailure(chain[..i], body, isResponse).None?
      invariant stats.Valid() && Separate(s, stats) && fresh(stats.Repr - old(stats.Repr))
      invariant s.buffer == old(s.buffer) || (s.kind.Growing? && fresh(s.buffer))
      invariant itemsLength == |Written(chain[..i], body, isResponse)|
      invariant record && !s.kind.Sizing? ==>
                  stats.Model() == RecordEntries(old(stats.Model()), chain[..i], body, isResponse, ringSize, maxKeys)
      invariant !record ==> unchanged(stats) && unchanged(old(stats.Repr)) && stats.Repr == old(stats.Repr)
    {
      StepFits(chain, i, body, isResponse);
      var written;
      written, failed := WriteEntry(s, chain[i], chain[..i], body, isResponse, record, stats, ringSize, maxKeys);
      if failed.Some? { return; }
      if written { itemsLength := itemsLength + 1; }
      i := i + 1;
    }
    assert chain[..i] == chain;
  }

  /** Writes [item count, (key, value)...]: the count is filled in last, sizes are recorded as they are written. */
  method WriteEnvelope<V>(
    s: Serializer, chain: seq<Method<V>>, body: Body<V>, isResponse: bool, record: bool,
    stats: SS.SizeTable<JsString>, ringSize: nat, maxKeys: nat)
    returns (failed: Option<Failure>)
    requires s.Valid() && s.index == 0 && stats.Valid() && Separate(s, stats) && 0 < ringSize
    modifies s, s.buffer, stats, stats.Repr
    ensures s.Valid() && stats.Valid() && Separate(s, stats) && fresh(stats.Repr - old(stats.Repr))
    ensures s.buffer == old(s.buffer) || (s.kind.Growing? && fresh(s.buffer))
    ensures failed.None? ==> Finished(s, chain, body, isResponse)
    ensures !s.kind.Borrowed? ==> failed == FirstFailure(chain, body, isResponse)
    ensures Fits(s.kind, old(s.buffer).Length, chain, body, isResponse) ==> failed.None?
    ensures record && failed.None? && !s.kind.Sizing? ==>
              stats.Model() == RecordEntries(old(stats.Model()), chain, body, isResponse, ringSize, maxKeys)
    ensures record && failed.Some? && !s.kind.Sizing? ==>
              RecordedPart(old(stats.Model()), stats.Model(), chain, body, isResponse, ringSize, maxKeys)
    ensures !record ==> unchanged(stats) && unchanged(stats.Repr)
  {
    hide RecordEntries, SS.SizeTable.Valid, Finished, Written, FirstFailure, RecordedPart;
    ReserveHeader(s, chain, body, isResponse);
    var itemsLength;
    itemsLength, failed := WriteEntries(s, chain, body, isResponse, record, stats, ringSize, maxKeys);
    if failed.Some? { return; }
    var threw := PatchCount(s, itemsLength, chain, body, isResponse);
    if threw {
      RecordedAllIsPart(old(stats.Model()), chain, body, isResponse, ringSize, maxKeys);
      failed := Some(RawFailure("RangeError"));
    }
  }

  lemma StepFits<V>(chain: seq<Method<V>>, i: nat, body: Body<V>, isResponse: bool)
    requires i < |chain|
    ensures chain[..i + 1] == chain[..i] + [chain[i]] && chain[..i + 1][..i] == chain[..i]
    ensures FirstFailure(chain, body, isResponse).None? ==> EntryFailure(chain[i], body, isResponse).None?
    ensures FirstFailure(chain[..i], body, isResponse).None? && EntryFailure(chain[i], body, isResponse).Some? ==>
              FirstFailure(chain, body, isResponse) == EntryFailure(chain[i], body, isResponse)
    ensures |Entries(chain[..i], body, isResponse)| + |EntryBytes(chain[i], body, isResponse)|
              <= |Entries(chain, body, isResponse)|
  {
    hide EntryBytes, EntryFailure;
    assert chain[..i + 1][..i] == chain[..i];
    PrefixFits(chain, i, body, isResponse);
    PrefixFits(chain, i + 1, body, isResponse);
  }

  // ---------- Planning the buffer ----------

  const ADAPTIVE_QUANTILE: real := 0.9
  const ADAPTIVE_PAD: real := 1.25
  const POOLED_QUANTILE: real := 1.0
  const POOLED_PAD: real := 1.25
  const TYPICAL_QUANTILE: real := 0.5
  const POOL_WARMUP_OBSERVATIONS: nat := 8
  const KEY_OVERHEAD_BYTES: nat := 24
  const MIN_COLD_START_BYTES: nat := 64

  datatype BinaryOptions = BinaryOptions(pool: BP.PoolOptions, ringSize: nat, maxKeys: nat)

  datatype BufferPlan = BufferPlan(size: nat, measured: bool, warm: bool)

  function ColdStartSize<V>(m: Method<V>, isResponse: bool): nat {
    var estimate := if isResponse then m.returnEstimate else m.paramsEstimate;
    (if estimate.Some? then estimate.value else 0) + KEY_OVERHEAD_BYTES
  }

  /** The size an entry is given before it is known: the estimate for its side, if there is one, and room for the key.
      */
  function FirstGuess<V>(m: Method<V>, isResponse: bool): nat {
    24 + match if isResponse then m.returnEstimate else m.paramsEstimate case Some(bytes) => bytes case None => 0
  }

  /** Header plus each written method's own prediction. */
  ghost function PredictedTotal<V>(
    t: SS.Tracked<JsString>, written: seq<Method<V>>, isResponse: bool, quantile: real, pad: real): int
    requires 0.0 <= quantile
  {
    if written == [] then 4
    else
      var last := written[|written| - 1];
      PredictedTotal(t, written[..|written| - 1], isResponse, quantile, pad) +
      SS.Predicted(t, last.id, quantile, pad, FirstGuess(last, isResponse))
  }

  ghost function Observations(t: SS.Tracked<JsString>, id: JsString): nat {
    if id in t.at then |SS.WindowOf(t.at[id])| else 0
  }

  ghost predicate Warm<V>(t: SS.Tracked<JsString>, written: seq<Method<V>>) {
    forall i :: 0 <= i < |written| ==> 8 <= Observations(t, written[i].id)
  }

  function AtLeast(floor: nat, n: int): nat {
    if n < floor then floor else n
  }

  ghost function WorstCase<V>(t: SS.Tracked<JsString>, written: seq<Method<V>>, isResponse: bool): nat {
    var total := PredictedTotal(t, written, isResponse, 1.0, 1.25);
    if total < 64 then 64 else total
  }

  /** The measure pass runs unless a warm window puts the typical and the worst envelope in one size class. */
  ghost predicate Measures<V>(t: SS.Tracked<JsString>, written: seq<Method<V>>, isResponse: bool, minClassBytes: nat) {
    !(Warm(t, written) &&
      BP.SizeClassFor(PredictedTotal(t, written, isResponse, 0.5, 1.0), minClassBytes) ==
      BP.SizeClassFor(WorstCase(t, written, isResponse), minClassBytes))
  }

  /** Exact byte count of the envelope, from a serializer that writes nothing. */
  method MeasureEnvelope<V>(chain: seq<Method<V>>, body: Body<V>, isResponse: bool, stats: SS.SizeTable<JsString>)
    returns (size: nat, failed: Option<Failure>)
    requires stats.Valid()
    modifies stats, stats.Repr
    ensures unchanged(stats) && unchanged(stats.Repr)
    ensures failed == FirstFailure(chain, body, isResponse)
    ensures failed.None? ==> size == ENVELOPE_HEADER_BYTES + MeasuredEntries(chain, body, isResponse)
  {
    hide SS.SizeTable.Valid, Entries, MeasuredEntries, FirstFailure;
    var nothing := new Byte[0];
    var sizer := new Serializer(Sizing, nothing);
    failed := WriteEnvelope(sizer, chain, body, isResponse, false, stats, 1, 0);
    size := sizer.index;
  }

  /** One pass over the chain: the padded worst case, the typical case, and whether history can be trusted. */
  method PredictEnvelope<V>(
    chain: seq<Method<V>>, body: Body<V>, isResponse: bool, stats: SS.SizeTable<JsString>, quantile: real, pad: real)
    returns (worst: int, typical: int, warm: bool)
    requires stats.Valid() && 0.0 <= quantile
    ensures var t, written := stats.Model(), Written(chain, body, isResponse);
            && worst == PredictedTotal(t, written, isResponse, quantile, pad)
            && typical == PredictedTotal(t, written, isResponse, 0.5, 1.0)
            && warm == Warm(t, written)
  {
    hide SS.SizeTable.Valid, SS.Predicted, WillSerialize, Written, PredictedTotal, Warm;
    NothingPredicted(chain, stats.Model(), body, isResponse, quantile, pad);
    worst, typical, warm := ENVELOPE_HEADER_BYTES, ENVELOPE_HEADER_BYTES, true;
    ghost var t := stats.Model();
    for i := 0 to |chain|
      invariant worst == PredictedTotal(t, Written(chain[..i], body, isResponse), isResponse, quantile, pad)
      invariant typical == PredictedTotal(t, Written(chain[..i], body, isResponse), isResponse, TYPICAL_QUANTILE, 1.0)
      invariant warm == Warm(t, Written(chain[..i], body, isResponse))
    {
      var m := chain[i];
      WrittenStep(chain, i, body, isResponse);
      if WillSerialize(m, body, isResponse) {
        ghost var before := Written(chain[..i], body, isResponse);
        PredictedStep(t, before, m, isResponse, quantile, pad);
        PredictedStep(t, before, m, isResponse, TYPICAL_QUANTILE, 1.0);
        WarmStep(t, before, m);
        var cold := ColdStartSize(m, isResponse);
        var size := stats.PredictSize(m.id, quantile, pad, cold);
        var usual := stats.PredictSize(m.id, TYPICAL_QUANTILE, 1.0, cold);
        var seen := stats.ObservationCount(m.id);
        worst, typical := worst + size, typical + usual;
        if seen < POOL_WARMUP_OBSERVATIONS { warm := false; }
      }
    }
    assert chain[..|chain|] == chain;
  }

  lemma NothingPredicted<V>(
    chain: seq<Method<V>>, t: SS.Tracked<JsString>, body: Body<V>, isResponse: bool, quantile: real, pad: real)
    requires 0.0 <= quantile
    ensures Written(chain[..0], body, isResponse) == []
    ensures var none: seq<Method<V>> := [];
            && Warm(t, none)
            && PredictedTotal(t, none, isResponse, quantile, pad) == ENVELOPE_HEADER_BYTES
            && PredictedTotal(t, none, isResponse, TYPICAL_QUANTILE, 1.0) == ENVELOPE_HEADER_BYTES
  {
  }

  lemma WrittenStep<V>(chain: seq<Method<V>>, i: nat, body: Body<V>, isResponse: bool)
    requires i < |chain|
    ensures var before, after := Written(chain[..i], body, isResponse), Written(chain[..i + 1], body, isResponse);
            after == if WillSerialize(chain[i], body, isResponse) then before + [chain[i]] else before
  {
    assert chain[..i + 1][..i] == chain[..i];
  }

  lemma PredictedStep<V>(
    t: SS.Tracked<JsString>, before: seq<Method<V>>, m: Method<V>, isResponse: bool, quantile: real, pad: real)
    requires 0.0 <= quantile
    ensures PredictedTotal(t, before + [m], isResponse, quantile, pad) ==
            PredictedTotal(t, before, isResponse, quantile, pad) +
            SS.Predicted(t, m.id, quantile, pad, FirstGuess(m, isResponse))
  {
    hide SS.Predicted;
    assert (before + [m])[..|before|] == before;
  }

  lemma WarmStep<V>(t: SS.Tracked<JsString>, before: seq<Method<V>>, m: Method<V>)
    ensures Warm(t, before + [m]) <==> Warm(t, before) && 8 <= Observations(t, m.id)
  {
    var all := before + [m];
    assert forall i :: 0 <= i < |before| ==> all[i] == before[i];
    assert all[|before|] == m;
  }

  /** The sum of padded predictions covers the envelope when no entry outgrows its own warm window. */
  lemma {:induction false} WarmWindowsCover<V>(
    t: SS.Tracked<JsString>, chain: seq<Method<V>>, body: Body<V>, isResponse: bool)
    requires Warm(t, Written(chain, body, isResponse))
    requires forall m :: m in Written(chain, body, isResponse) ==> InWindow(t, m, body, isResponse)
    ensures |Envelope(chain, body, isResponse)| <=
            PredictedTotal(t, Written(chain, body, isResponse), isResponse, 1.0, 1.25)
  {
    if chain != [] {
      hide EntryBytes, SS.Predicted, WillSerialize, InWindow;
      var n, m := |chain| - 1, chain[|chain| - 1];
      var before := Written(chain[..n], body, isResponse);
      WrittenStep(chain, n, body, isResponse);
      assert chain[..n + 1] == chain;
      if WillSerialize(m, body, isResponse) {
        WarmStep(t, before, m);
        PredictedStep(t, before, m, isResponse, POOLED_QUANTILE, POOLED_PAD);
        assert m in before + [m];
        EntryIsCovered(t, m, body, isResponse);
      } else {
        SkippedEntryIsEmpty(m, body, isResponse);
      }
      WarmWindowsCover(t, chain[..n], body, isResponse);
    }
  }

  /** The entry is no larger than the largest size its method's window remembers. */
  ghost predicate InWindow<V>(t: SS.Tracked<JsString>, m: Method<V>, body: Body<V>, isResponse: bool) {
    m.id in t.at && exists x :: x in SS.WindowOf(t.at[m.id]) && |EntryBytes(m, body, isResponse)| <= x
  }

  lemma SkippedEntryIsEmpty<V>(m: Method<V>, body: Body<V>, isResponse: bool)
    requires !WillSerialize(m, body, isResponse)
    ensures EntryBytes(m, body, isResponse) == []
  {
  }

  lemma EntryIsCovered<V>(t: SS.Tracked<JsString>, m: Method<V>, body: Body<V>, isResponse: bool)
    requires InWindow(t, m, body, isResponse)
    ensures |EntryBytes(m, body, isResponse)| <=
            SS.Predicted(t, m.id, POOLED_QUANTILE, POOLED_PAD, FirstGuess(m, isResponse))
  {
    var x :| x in SS.WindowOf(t.at[m.id]) && |EntryBytes(m, body, isResponse)| <= x;
    SS.PredictionCoversWindow(SS.WindowOf(t.at[m.id]), POOLED_PAD, x);
  }

  /** Every write of the envelope is one the measure pass counts exactly. */
  ghost predicate AllCountable<V>(chain: seq<Method<V>>, body: Body<V>, isResponse: bool) {
    forall m :: m in Written(chain, body, isResponse) && WillSerialize(m, body, isResponse) ==>
      forall w :: w in EntryWrites(m, body, isResponse) ==> Countable(w)
  }

  /** The measure pass ends exactly where the real encoder will. */
  lemma {:induction false} MeasurePassIsExact<V>(chain: seq<Method<V>>, body: Body<V>, isResponse: bool)
    requires AllCountable(chain, body, isResponse)
    ensures ENVELOPE_HEADER_BYTES + MeasuredEntries(chain, body, isResponse) == |Envelope(chain, body, isResponse)|
  {
    if chain != [] {
      var n, m := |chain| - 1, chain[|chain| - 1];
      WrittenStep(chain, n, body, isResponse);
      assert chain[..n + 1] == chain;
      MeasurePassIsExact(chain[..n], body, isResponse);
      if WillSerialize(m, body, isResponse) {
        assert m in Written(chain, body, isResponse);
        AllCountableIsExact(EntryWrites(m, body, isResponse));
      }
    }
  }

  // ---------- Choosing the lane ----------

  /** What a caller gets: a view of exactly the bytes written, valid until it is released. */
  class BinaryBodyResult {
    const serializer: Serializer
    /** the buffer the view is over, and how far it reaches */
    const buffer: BP.Buffer
    const length: nat
    const lease: Option<BP.Lease>
    var released: bool

    constructor (serializer: Serializer, lease: Option<BP.Lease>)
      requires serializer.index <= serializer.buffer.Length
      ensures this.serializer == serializer && this.lease == lease && !released
      ensures buffer == serializer.buffer && length == serializer.index <= buffer.Length
    {
      this.serializer, this.lease, this.released := serializer, lease, false;
      this.buffer, this.length := serializer.buffer, serializer.index;
    }

    function View(): seq<Byte>
      reads buffer
    {
      if length <= buffer.Length then buffer[..length] else []
    }

    /** Gives a pooled buffer back, once. */
    method Release(pool: BP.BufferPool, opts: BP.PoolOptions)
      requires pool.Valid()
      requires !released && lease.Some? && lease.value.pooled && !lease.value.released ==> lease.value in pool.live
      modifies this, pool, if lease.Some? then {lease.value} else {}
      ensures pool.Valid() && released
      ensures old(released) || lease.None? ==> unchanged(pool)
      ensures old(released) && lease.Some? ==> unchanged(lease.value)
      ensures !old(released) && lease.Some? ==> pool.live == old(pool.live) - {lease.value}
      ensures pool.FreeBuffers() <= old(pool.FreeBuffers()) + if lease.Some? then {lease.value.buffer} else {}
    {
      if released { return; }
      released := true;
      if lease.Some? { pool.Release(lease.value, opts); }
    }
  }

  /** Errors of the reference lane always surface as protocol errors. */
  function ToRpcError(f: Failure, isResponse: bool): Failure {
    if f.RpcFailure? then f
    else RpcFailure(if isResponse then "binary-response-Serialization-error" else "binary-request-Serialization-error")
  }

  /** The pool and the statistics share no object. */
  ghost predicate PoolApart(pool: BP.BufferPool, stats: SS.SizeTable<JsString>)
    reads pool, stats
  {
    && pool as object != stats && pool !in stats.Repr
    && (forall b: BP.Buffer :: b in pool.FreeBuffers() ==> b as object != stats && b !in stats.Repr)
    && (forall l: BP.Lease :: l in pool.live ==>
          l as object != stats && l !in stats.Repr && l.buffer as object != stats && l.buffer !in stats.Repr)
  }

  /** The result shows the reference envelope. */
  ghost predicate Delivers<V>(result: BinaryBodyResult, chain: seq<Method<V>>, body: Body<V>, isResponse: bool)
    reads result.buffer
  {
    FirstFailure(chain, body, isResponse).None? && result.View() == Envelope(chain, body, isResponse)
  }

  /** The lease a result keeps from the pool. */
  ghost function PooledLease(result: BinaryBodyResult): set<BP.Lease> {
    if result.lease.Some? && result.lease.value.pooled then {result.lease.value} else {}
  }

  /** The statistics gained every written method's observation, after those of an abandoned attempt if there was one. */
  ghost predicate RecordedWithRetry<V>(
    was: SS.Tracked<JsString>, now: SS.Tracked<JsString>, chain: seq<Method<V>>, body: Body<V>, isResponse: bool,
    ringSize: nat, maxKeys: nat)
  {
    exists mid :: RecordedPart(was, mid, chain, body, isResponse, ringSize, maxKeys) &&
                  now == RecordEntries(mid, chain, body, isResponse, ringSize, maxKeys)
  }

  /** The statistics gained the observations of the failed attempts: a first part of the chain each, or nothing. */
  ghost predicate RecordedInVain<V>(
    was: SS.Tracked<JsString>, now: SS.Tracked<JsString>, chain: seq<Method<V>>, body: Body<V>, isResponse: bool,
    ringSize: nat, maxKeys: nat)
  {
    exists mid :: RecordedPart(was, mid, chain, body, isResponse, ringSize, maxKeys) &&
                  RecordedPart(mid, now, chain, body, isResponse, ringSize, maxKeys)
  }

  lemma NothingRecordedIsPart<V>(
    was: SS.Tracked<JsString>, chain: seq<Method<V>>, body: Body<V>, isResponse: bool, ringSize: nat, maxKeys: nat)
    ensures RecordedPart(was, was, chain, body, isResponse, ringSize, maxKeys)
  {
    assert RecordEntries(was, chain[..0], body, isResponse, ringSize, maxKeys) == was;
  }

  /** The caller may still read the result: nothing a later call writes to is part of it. */
  ghost predicate Held(result: BinaryBodyResult, pool: BP.BufferPool, stats: SS.SizeTable<JsString>)
    reads result, pool, stats
  {
    var buffer, lease := result.buffer, result.lease;
    && !result.released && result !in stats.Repr && buffer !in stats.Repr && buffer !in pool.FreeBuffers()
    && (lease.Some? ==> lease.value.buffer == buffer && lease.value !in stats.Repr)
    && (lease.Some? && lease.value.pooled ==> lease.value in pool.live)
  }

  /** The bytes the pooled lane will ask for. */
  ghost function PooledSize<V>(
    t: SS.Tracked<JsString>, chain: seq<Method<V>>, body: Body<V>, isResponse: bool, opts: BinaryOptions): nat
  {
    if Measures(t, Written(chain, body, isResponse), isResponse, opts.pool.minClassBytes)
    then ENVELOPE_HEADER_BYTES + MeasuredEntries(chain, body, isResponse)
    else WorstCase(t, Written(chain, body, isResponse), isResponse)
  }

  ghost predicate AsksForEnough<V>(
    t: SS.Tracked<JsString>, chain: seq<Method<V>>, body: Body<V>, isResponse: bool, opts: BinaryOptions)
  {
    |Envelope(chain, body, isResponse)| <= PooledSize(t, chain, body, isResponse, opts)
  }

  /** A measure pass runs outside any handler, so its failure reaches the caller unconverted. */
  ghost predicate FailsRaw<V>(
    t: SS.Tracked<JsString>, chain: seq<Method<V>>, body: Body<V>, isResponse: bool, opts: BinaryOptions)
  {
    opts.pool.enabled && Measures(t, Written(chain, body, isResponse), isResponse, opts.pool.minClassBytes)
  }

  /** The failure a caller sees. */
  ghost function Surfaced<V>(
    t: SS.Tracked<JsString>, chain: seq<Method<V>>, body: Body<V>, isResponse: bool, opts: BinaryOptions): Failure
    requires FirstFailure(chain, body, isResponse).Some?
  {
    var failure := FirstFailure(chain, body, isResponse).value;
    if FailsRaw(t, chain, body, isResponse, opts) then failure else ToRpcError(failure, isResponse)
  }

  /** A caller gets a protocol error exactly when the measure pass does not fail raw, or the encoder threw one. */
  lemma SurfacesAsRpcErrorIff<V>(
    t: SS.Tracked<JsString>, chain: seq<Method<V>>, body: Body<V>, isResponse: bool, opts: BinaryOptions)
    requires FirstFailure(chain, body, isResponse).Some?
    ensures Surfaced(t, chain, body, isResponse, opts).RpcFailure? <==>
            !FailsRaw(t, chain, body, isResponse, opts) || FirstFailure(chain, body, isResponse).value.RpcFailure?
  {
  }

  /** With pooling on, one method that is not warm yet and an encoder that throws: no protocol error. */
  lemma ColdEncoderExceptionEscapes<V>(
    t: SS.Tracked<JsString>, m: Method<V>, body: Body<V>, isResponse: bool, opts: BinaryOptions, message: string)
    requires opts.pool.enabled && Observations(t, m.id) < 8
    requires WillSerialize(m, body, isResponse)
    requires EncodingOf(m, body, isResponse).thrown == Some(RawFailure(message))
    ensures FirstFailure([m], body, isResponse) == Some(RawFailure(message))
    ensures Surfaced(t, [m], body, isResponse, opts) == RawFailure(message)
  {
    hide WillSerialize, EncodingOf;
    assert [m][..0] == [];
    assert Written([m], body, isResponse) == [m];
    assert [m][0] == m;
  }

  /** The size the pooled lane asks for is enough whenever it was counted on countable writes, or predicted
      for entries that stay inside their windows: no re-encode then. */
  lemma PooledSizeSuffices<V>(
    t: SS.Tracked<JsString>, chain: seq<Method<V>>, body: Body<V>, isResponse: bool, opts: BinaryOptions)
    requires if Measures(t, Written(chain, body, isResponse), isResponse, opts.pool.minClassBytes)
             then AllCountable(chain, body, isResponse)
             else forall m :: m in Written(chain, body, isResponse) ==> InWindow(t, m, body, isResponse)
    ensures AsksForEnough(t, chain, body, isResponse, opts)
  {
    hide Envelope, PredictedTotal;
    if Measures(t, Written(chain, body, isResponse), isResponse, opts.pool.minClassBytes) {
      MeasurePassIsExact(chain, body, isResponse);
    } else {
      WarmWindowsCover(t, chain, body, isResponse);
    }
  }

  class BinaryLane {
    const pool: BP.BufferPool
    var pooled: nat
    var adaptive: nat
    var measured: nat
    var retries: nat

    constructor (pool: BP.BufferPool)
      ensures this.pool == pool && pooled == adaptive == measured == retries == 0
    {
      this.pool := pool;
      pooled, adaptive, measured, retries := 0, 0, 0, 0;
    }

    /** Decides how many bytes to ask for: predicted, or counted when history cannot be trusted. */
    method PlanBuffer<V>(
      chain: seq<Method<V>>, body: Body<V>, isResponse: bool, forPool: bool, stats: SS.SizeTable<JsString>,
      opts: BinaryOptions)
      returns (plan: BufferPlan, failed: Option<Failure>)
      requires stats.Valid() && stats as object != this && this !in stats.Repr
      modifies this`measured, stats, stats.Repr
      ensures unchanged(stats) && unchanged(stats.Repr)
      ensures var t, written := stats.Model(), Written(chain, body, isResponse);
              && plan.warm == Warm(t, written)
              && plan.measured == (forPool && Measures(t, written, isResponse, opts.pool.minClassBytes))
              && failed == (if plan.measured then FirstFailure(chain, body, isResponse) else None)
              && (plan.measured && failed.None? ==>
                    plan.size == 4 + MeasuredEntries(chain, body, isResponse))
              && (!plan.measured && forPool ==> plan.warm && plan.size == WorstCase(t, written, isResponse))
              && measured == old(measured) + if plan.measured && failed.None? then 1 else 0
      ensures var total := PredictedTotal(stats.Model(), Written(chain, body, isResponse), isResponse, 0.9, 1.25);
              !forPool ==> plan.size == if total < 64 then 64 else total
    {
      hide SS.SizeTable.Valid, Warm, PredictedTotal, Written;
      var worst, typical, warm := PredictEnvelope(chain, body, isResponse, stats,
        if forPool then POOLED_QUANTILE else ADAPTIVE_QUANTILE, if forPool then POOLED_PAD else ADAPTIVE_PAD);
      var size := AtLeast(MIN_COLD_START_BYTES, worst);
      failed := None;
      var minClass := opts.pool.minClassBytes;
      if !forPool || (warm && BP.SizeClassFor(typical, minClass) == BP.SizeClassFor(size, minClass)) {
        plan := BufferPlan(size, false, warm);
        return;
      }
      size, failed := MeasureEnvelope(chain, body, isResponse, stats);
      plan := BufferPlan(size, true, warm);
      if failed.None? { measured := measured + 1; }
    }

    /** One attempt on a borrowed buffer; a failed one gives its lease back and yields nothing. */
    method SerializePooled<V>(
      chain: seq<Method<V>>, body: Body<V>, isResponse: bool, plan: BufferPlan, stats: SS.SizeTable<JsString>,
      opts: BinaryOptions)
      returns (result: Option<BinaryBodyResult>)
      requires pool.Valid() && stats.Valid() && PoolApart(pool, stats) && 0 < opts.ringSize
      requires stats as object != this && this !in stats.Repr && pool as object != this
      modifies this`pooled, pool, pool.FreeBuffers(), stats, stats.Repr
      ensures pool.Valid() && stats.Valid() && PoolApart(pool, stats) && fresh(stats.Repr - old(stats.Repr))
      ensures fresh(pool.FreeBuffers() - old(pool.FreeBuffers()))
      ensures result.Some? ==>
                && fresh(result.value)
                && Delivers(result.value, chain, body, isResponse) && Held(result.value, pool, stats)
                && stats.Model() ==
                     RecordEntries(old(stats.Model()), chain, body, isResponse, opts.ringSize, opts.maxKeys)
                && result.value.lease.Some? && fresh(result.value.lease.value)
                && pool.live == old(pool.live) + PooledLease(result.value)
                && (fresh(result.value.buffer) || result.value.buffer in old(pool.FreeBuffers()))
      ensures result.None? ==>
                && pool.live == old(pool.live)
                && RecordedPart(old(stats.Model()), stats.Model(), chain, body, isResponse, opts.ringSize, opts.maxKeys)
      ensures (FirstFailure(chain, body, isResponse).None? && |Envelope(chain, body, isResponse)| <= plan.size) ==>
                result.Some?
      ensures pooled == old(pooled) + if result.Some? then 1 else 0
    {
      hide SS.SizeTable.Valid, BP.BufferPool.Valid, BP.BufferPool.Within, BP.BufferPool.FiledUnder, BP.BufferPool.Kept,
        BP.ListAt, BP.Files, BP.SizeClassFor, BP.BufferPool.Lent, Envelope, FirstFailure, RecordEntries, RecordedPart;
      var lease := pool.AcquireBuffer(plan.size, opts.pool);
      var serializer, fits := WriteOnLease(lease, chain, body, isResponse, stats, opts);
      if !fits {
        pool.Release(lease, opts.pool);
        return None;
      }
      pooled := pooled + 1;
      var finished := new BinaryBodyResult(serializer, Some(lease));
      result := Some(finished);
    }

    /** Writes the envelope on a borrowed buffer. The one check at the end suffices: the cursor only grows. */
    method WriteOnLease<V>(
      lease: BP.Lease, chain: seq<Method<V>>, body: Body<V>, isResponse: bool, stats: SS.SizeTable<JsString>,
      opts: BinaryOptions)
      returns (serializer: Serializer, fits: bool)
      requires stats.Valid() && 0 < opts.ringSize && lease.buffer as object != stats && lease.buffer !in stats.Repr
      modifies lease.buffer, stats, stats.Repr
      ensures stats.Valid() && fresh(stats.Repr - old(stats.Repr))
      ensures fresh(serializer) && serializer !in stats.Repr && serializer.buffer == lease.buffer
      ensures fits ==>
                && FirstFailure(chain, body, isResponse).None? && serializer.index <= serializer.buffer.Length
                && serializer.buffer[..serializer.index] == Envelope(chain, body, isResponse)
                && stats.Model() ==
                     RecordEntries(old(stats.Model()), chain, body, isResponse, opts.ringSize, opts.maxKeys)
      ensures !fits ==>
                RecordedPart(old(stats.Model()), stats.Model(), chain, body, isResponse, opts.ringSize, opts.maxKeys)
      ensures (FirstFailure(chain, body, isResponse).None?
          && |Envelope(chain, body, isResponse)| <= lease.buffer.Length) ==> fits
    {
      hide SS.SizeTable.Valid, Envelope, FirstFailure, RecordEntries, RecordedPart;
      serializer := new Serializer(Borrowed, lease.buffer);
      var failed := WriteEnvelope(serializer, chain, body, isResponse, true, stats, opts.ringSize, opts.maxKeys);
      fits := failed.None? && serializer.index <= serializer.buffer.Length;
      RecordedAllIsPart(old(stats.Model()), chain, body, isResponse, opts.ringSize, opts.maxKeys);
    }

    /** The reference lane: a growing buffer cannot overflow, so a failure here is the encoder's own. */
    method SerializeAdaptive<V>(
      chain: seq<Method<V>>, body: Body<V>, isResponse: bool, stats: SS.SizeTable<JsString>, opts: BinaryOptions)
      returns (r: Result<BinaryBodyResult, Failure>)
      requires stats.Valid() && stats as object != this && this !in stats.Repr && 0 < opts.ringSize
      modifies this`adaptive, this`measured, stats, stats.Repr
      ensures stats.Valid() && fresh(stats.Repr - old(stats.Repr))
      ensures FirstFailure(chain, body, isResponse).Some? ==>
                r == Err(ToRpcError(FirstFailure(chain, body, isResponse).value, isResponse))
      ensures FirstFailure(chain, body, isResponse).None? ==>
                && r.Ok? && fresh(r.value) && !r.value.released && r.value.lease.None?
                && fresh(r.value.buffer) && r.value !in stats.Repr && r.value.buffer !in stats.Repr
                && Delivers(r.value, chain, body, isResponse)
                && stats.Model() ==
                     RecordEntries(old(stats.Model()), chain, body, isResponse, opts.ringSize, opts.maxKeys)
      ensures r.Err? ==>
                RecordedPart(old(stats.Model()), stats.Model(), chain, body, isResponse, opts.ringSize, opts.maxKeys)
      ensures adaptive == old(adaptive) + if r.Ok? then 1 else 0
      ensures measured == old(measured)
    {
      hide SS.SizeTable.Valid, Envelope, FirstFailure, Written, RecordEntries, RecordedPart;
      var plan, _ := PlanBuffer(chain, body, isResponse, false, stats, opts);
      var owned := new Byte[plan.size];
      var serializer := new Serializer(Growing, owned);
      var failed := WriteEnvelope(serializer, chain, body, isResponse, true, stats, opts.ringSize, opts.maxKeys);
      if failed.Some? { return Err(ToRpcError(failed.value, isResponse)); }
      adaptive := adaptive + 1;
      var finished := new BinaryBodyResult(serializer, None);
      r := Ok(finished);
    }

    /** The pooled lane, when pooling is on: a result, nothing, or the measure pass's own exception. */
    method AttemptPooled<V>(
      chain: seq<Method<V>>, body: Body<V>, isResponse: bool, stats: SS.SizeTable<JsString>, opts: BinaryOptions)
      returns (r: Result<Option<BinaryBodyResult>, Failure>)
      requires pool.Valid() && stats.Valid() && PoolApart(pool, stats) && 0 < opts.ringSize
      requires stats as object != this && this !in stats.Repr && pool as object != this
      modifies this`pooled, this`measured, this`retries, pool, pool.FreeBuffers(), stats, stats.Repr
      ensures pool.Valid() && stats.Valid() && PoolApart(pool, stats)
      ensures fresh(stats.Repr - old(stats.Repr)) && fresh(pool.FreeBuffers() - old(pool.FreeBuffers()))
      ensures r.Err? <==>
                FailsRaw(old(stats.Model()), chain, body, isResponse, opts)
                  && FirstFailure(chain, body, isResponse).Some?
      ensures r.Err? ==> FirstFailure(chain, body, isResponse) == Some(r.error) && stats.Model() == old(stats.Model())
      ensures r.Ok? && r.value.Some? ==>
                && Delivers(r.value.value, chain, body, isResponse) && Held(r.value.value, pool, stats)
                && fresh(r.value.value)
                && r.value.value.lease.Some? && fresh(r.value.value.lease.value)
                && (fresh(r.value.value.buffer) || r.value.value.buffer in old(pool.FreeBuffers()))
                && pool.live == old(pool.live) + PooledLease(r.value.value)
                && stats.Model() ==
                     RecordEntries(old(stats.Model()), chain, body, isResponse, opts.ringSize, opts.maxKeys)
                && retries == old(retries) && pooled == old(pooled) + 1
      ensures !(r.Ok? && r.value.Some?) ==> pool.live == old(pool.live) && pooled == old(pooled)
      ensures r == Ok(None) ==>
                if retries == old(retries) then stats.Model() == old(stats.Model())
                else RecordedPart(old(stats.Model()), stats.Model(), chain, body, isResponse, opts.ringSize,
                  opts.maxKeys)
      ensures FirstFailure(chain, body, isResponse).None? && opts.pool.enabled
                && AsksForEnough(old(stats.Model()), chain, body, isResponse, opts) ==>
                  r.Ok? && r.value.Some?
    {
      hide SS.SizeTable.Valid, BP.BufferPool.Valid, Envelope, FirstFailure, Written, Measures, WorstCase,
        MeasuredEntries, RecordEntries, RecordedPart;
      var enabled := pool.IsEnabled(opts.pool);
      if !enabled { return Ok(None); }
      var plan, failed := PlanBuffer(chain, body, isResponse, true, stats, opts);
      if failed.Some? { return Err(failed.value); }
      if !plan.measured && !plan.warm { return Ok(None); }
      var attempt := SerializePooled(chain, body, isResponse, plan, stats, opts);
      if attempt.None? { retries := retries + 1; }
      r := Ok(attempt);
    }

    /** Whichever lane runs, the bytes are those of the growing-buffer encode. */
    method SerializeBinaryBody<V>(
      chain: seq<Method<V>>, body: Body<V>, isResponse: bool, stats: SS.SizeTable<JsString>, opts: BinaryOptions)
      returns (r: Result<BinaryBodyResult, Failure>)
      requires pool.Valid() && stats.Valid() && PoolApart(pool, stats) && 0 < opts.ringSize
      requires stats as object != this && this !in stats.Repr && pool as object != this
      modifies this, pool, pool.FreeBuffers(), stats, stats.Repr
      ensures pool.Valid() && stats.Valid() && PoolApart(pool, stats)
      ensures fresh(stats.Repr - old(stats.Repr)) && fresh(pool.FreeBuffers() - old(pool.FreeBuffers()))
      ensures r.Ok? <==> FirstFailure(chain, body, isResponse).None?
      ensures r.Ok? ==>
                && Delivers(r.value, chain, body, isResponse) && Held(r.value, pool, stats)
                && fresh(r.value)
                && (r.value.lease.Some? ==> fresh(r.value.lease.value))
                && (fresh(r.value.buffer) || r.value.buffer in old(pool.FreeBuffers()))
      ensures r.Err? ==> r.error == Surfaced(old(stats.Model()), chain, body, isResponse, opts)
      ensures r.Err? ==> RecordedInVain(
                old(stats.Model()), stats.Model(), chain, body, isResponse, opts.ringSize, opts.maxKeys)
      ensures pool.live == old(pool.live) + if r.Ok? then PooledLease(r.value) else {}
      ensures forall l :: l in old(pool.live) ==> l.buffer[..] == old(l.buffer[..])
      ensures r.Ok? ==> pooled + adaptive == old(pooled + adaptive) + 1
      ensures r.Ok? && retries == old(retries) ==>
                stats.Model() == RecordEntries(old(stats.Model()), chain, body, isResponse, opts.ringSize, opts.maxKeys)
      ensures r.Ok? ==> RecordedWithRetry(
                old(stats.Model()), stats.Model(), chain, body, isResponse, opts.ringSize, opts.maxKeys)
      ensures r.Ok? && opts.pool.enabled && AsksForEnough(old(stats.Model()), chain, body, isResponse, opts) ==>
                retries == old(retries) && pooled == old(pooled) + 1
    {
      hide SS.SizeTable.Valid, BP.BufferPool.Valid, Envelope, FirstFailure, Measures, PooledSize, RecordEntries,
        RecordedPart, Written;
      pool.LiveBuffersAreNotFree();
      NothingRecordedIsPart(stats.Model(), chain, body, isResponse, opts.ringSize, opts.maxKeys);
      var attempt := AttemptPooled(chain, body, isResponse, stats, opts);
      if attempt.Err? { return Err(attempt.error); }
      if attempt.value.Some? {
        return Ok(attempt.value.value);
      }
      r := SerializeAdaptive(chain, body, isResponse, stats, opts);
    }
  }
}
