/** Many envelopes through one lane: what the statistics remember, and how long a result can be read. */
module BinaryRuns {
  import opened Basics
  import opened BodySerializer
  import BP = BufferPool
  import SS = SizeStats

  // ---------- What one request teaches the next ----------

  /** Recording these ids never evicts a window: they and the tracked ones fit, and a full table starts no ring anew. */
  ghost predicate HasRoom(t: SS.Tracked<JsString>, ids: set<JsString>, ringSize: nat, maxKeys: nat) {
    && SS.Consistent(t) && Elements(t.order) <= ids && |ids| <= maxKeys && 0 < ringSize
    && (|ids| < maxKeys || forall id :: id in t.at ==> t.at[id].ringSize == ringSize)
  }

  lemma FullTableHoldsAll(order: seq<JsString>, ids: set<JsString>, id: JsString)
    requires NoDup(order) && Elements(order) <= ids && id in ids && |ids| <= |order|
    ensures id in Elements(order) && |ids| == |order|
  {
    NoDupCardinality(order);
    CardinalityGrows(Elements(order), ids);
    if id !in Elements(order) { CardinalityGrows(Elements(order), ids - {id}); }
  }

  /** One observation is remembered and costs no other id its window. */
  lemma RecordedKeepsWindows(
    t: SS.Tracked<JsString>, ids: set<JsString>, id: JsString, bytes: int, ringSize: nat, maxKeys: nat)
    requires HasRoom(t, ids, ringSize, maxKeys) && id in ids
    ensures var now := SS.Recorded(t, id, bytes, ringSize, maxKeys);
            && HasRoom(now, ids, ringSize, maxKeys)
            && id in now.at && bytes in SS.WindowOf(now.at[id])
            && forall other :: other in t.at && other != id ==> other in now.at && now.at[other] == t.at[other]
  {
    hide NoDup, Elements;
    if |t.order| >= maxKeys { FullTableHoldsAll(t.order, ids, id); }
    SS.AppendedKey(t.order, id);
    var now := SS.Recorded(t, id, bytes, ringSize, maxKeys);
    var seen := now.at[id].seen;
    assert seen[|seen| - 1] == bytes;
  }

  /** The written methods have ids among these. */
  ghost predicate WritesOnly<V>(chain: seq<Method<V>>, body: Body<V>, isResponse: bool, ids: set<JsString>) {
    forall m :: m in chain && WillSerialize(m, body, isResponse) ==> m.id in ids
  }

  ghost predicate OneEntryEach<V>(written: seq<Method<V>>) {
    forall i, j :: 0 <= i < j < |written| ==> written[i].id != written[j].id
  }

  lemma {:induction false} EntriesKeepRoom<V>(
    t: SS.Tracked<JsString>, ids: set<JsString>, chain: seq<Method<V>>, body: Body<V>, isResponse: bool,
    ringSize: nat, maxKeys: nat)
    requires HasRoom(t, ids, ringSize, maxKeys) && WritesOnly(chain, body, isResponse, ids)
    ensures HasRoom(RecordEntries(t, chain, body, isResponse, ringSize, maxKeys), ids, ringSize, maxKeys)
  {
    hide HasRoom, WillSerialize, EntryBytes, SS.Recorded;
    if chain != [] {
      var front, m := chain[..|chain| - 1], chain[|chain| - 1];
      EntriesKeepRoom(t, ids, front, body, isResponse, ringSize, maxKeys);
      if WillSerialize(m, body, isResponse) {
        RecordedKeepsWindows(RecordEntries(t, front, body, isResponse, ringSize, maxKeys), ids, m.id,
          |EntryBytes(m, body, isResponse)|, ringSize, maxKeys);
      }
    }
  }

  lemma LastStandsAlone<V>(written: seq<Method<V>>, m: Method<V>)
    requires OneEntryEach(written + [m])
    ensures OneEntryEach(written) && forall x :: x in written ==> x.id != m.id
  {
    var all := written + [m];
    assert forall i :: 0 <= i < |written| ==> all[i] == written[i];
    assert all[|written|] == m;
  }

  /** After a full recording every entry is inside its method's window. */
  lemma {:induction false} RecordedEntriesAreInWindow<V>(
    t: SS.Tracked<JsString>, ids: set<JsString>, chain: seq<Method<V>>, body: Body<V>, isResponse: bool,
    ringSize: nat, maxKeys: nat)
    requires HasRoom(t, ids, ringSize, maxKeys) && WritesOnly(chain, body, isResponse, ids)
    requires OneEntryEach(Written(chain, body, isResponse))
    ensures forall m :: m in Written(chain, body, isResponse) ==>
              InWindow(RecordEntries(t, chain, body, isResponse, ringSize, maxKeys), m, body, isResponse)
  {
    hide HasRoom, WillSerialize, EntryBytes, SS.Recorded, SS.WindowOf, OneEntryEach;
    if chain != [] {
      var n, m := |chain| - 1, chain[|chain| - 1];
      var front := chain[..n];
      var before, written :=
        RecordEntries(t, front, body, isResponse, ringSize, maxKeys), Written(front, body, isResponse);
      WrittenStep(chain, n, body, isResponse);
      assert chain[..n + 1] == chain;
      if WillSerialize(m, body, isResponse) {
        LastStandsAlone(written, m);
        RecordedEntriesAreInWindow(t, ids, front, body, isResponse, ringSize, maxKeys);
        EntriesKeepRoom(t, ids, front, body, isResponse, ringSize, maxKeys);
        RecordedKeepsWindows(before, ids, m.id, |EntryBytes(m, body, isResponse)|, ringSize, maxKeys);
      } else {
        RecordedEntriesAreInWindow(t, ids, front, body, isResponse, ringSize, maxKeys);
      }
    }
  }

  /** An envelope that was delivered, after a retry or at once, leaves the statistics sized for the same payload: the
      next pooled attempt with it asks for enough, whenever it predicts, or counts countable writes. */
  lemma NextRequestIsSized<V>(
    was: SS.Tracked<JsString>, now: SS.Tracked<JsString>, ids: set<JsString>, chain: seq<Method<V>>, body: Body<V>,
    isResponse: bool, opts: BinaryOptions)
    requires HasRoom(was, ids, opts.ringSize, opts.maxKeys) && WritesOnly(chain, body, isResponse, ids)
    requires OneEntryEach(Written(chain, body, isResponse))
    requires RecordedWithRetry(was, now, chain, body, isResponse, opts.ringSize, opts.maxKeys)
    ensures forall m :: m in Written(chain, body, isResponse) ==> InWindow(now, m, body, isResponse)
    ensures var measures := Measures(now, Written(chain, body, isResponse), isResponse, opts.pool.minClassBytes);
            !measures || AllCountable(chain, body, isResponse) ==> AsksForEnough(now, chain, body, isResponse, opts)
  {
    hide HasRoom, WillSerialize, RecordEntries, InWindow, Written, Measures, Envelope, PooledSize, AllCountable;
    var mid :| RecordedPart(was, mid, chain, body, isResponse, opts.ringSize, opts.maxKeys) &&
               now == RecordEntries(mid, chain, body, isResponse, opts.ringSize, opts.maxKeys);
    var n: nat :| n <= |chain| && mid == RecordEntries(was, chain[..n], body, isResponse, opts.ringSize, opts.maxKeys);
    EntriesKeepRoom(was, ids, chain[..n], body, isResponse, opts.ringSize, opts.maxKeys);
    RecordedEntriesAreInWindow(mid, ids, chain, body, isResponse, opts.ringSize, opts.maxKeys);
    var measures := Measures(now, Written(chain, body, isResponse), isResponse, opts.pool.minClassBytes);
    if !measures || AllCountable(chain, body, isResponse) {
      PooledSizeSuffices(now, chain, body, isResponse, opts);
    }
  }

  // ---------- How long a result can be read ----------

  /** What a server does with its lane: encode an envelope, or release one of the results it was given. */
  datatype Op<!V> =
    | Encode(chain: seq<Method<V>>, body: Body<V>, isResponse: bool, opts: BinaryOptions)
    | Release(at: nat, pool: BP.PoolOptions)

  predicate Succeeds<V>(op: Op<V>) {
    op.Encode? && FirstFailure(op.chain, op.body, op.isResponse).None?
  }

  /** The envelopes asked for, without those whose encoder throws. */
  function Envelopes<V>(ops: seq<Op<V>>): seq<seq<Byte>> {
    if ops == [] then []
    else
      var last := ops[|ops| - 1];
      Envelopes(ops[..|ops| - 1]) + if Succeeds(last) then [Envelope(last.chain, last.body, last.isResponse)] else []
  }

  /** The results released so far: a release of a result that does not exist yet does nothing. */
  function ReleasedBy<V>(ops: seq<Op<V>>): set<nat> {
    if ops == [] then {}
    else
      var before, last := ops[..|ops| - 1], ops[|ops| - 1];
      ReleasedBy(before) + if last.Release? && last.at < |Envelopes(before)| then {last.at} else {}
  }

  lemma ScheduleStep<V>(ops: seq<Op<V>>, k: nat)
    requires k < |ops|
    ensures var bytes, released := Envelopes(ops[..k]), ReleasedBy(ops[..k]);
            && Envelopes(ops[..k + 1]) == bytes +
                 (if Succeeds(ops[k]) then [Envelope(ops[k].chain, ops[k].body, ops[k].isResponse)] else [])
            && ReleasedBy(ops[..k + 1]) ==
                 released + (if ops[k].Release? && ops[k].at < |bytes| then {ops[k].at} else {})
            && released + {} == released && bytes + [] == bytes
  {
    hide Succeeds, Envelope;
    assert ops[..k + 1][..k] == ops[..k];
  }

  /** The result can still be read and shows these bytes. */
  ghost predicate Shows(result: BinaryBodyResult, bytes: seq<Byte>, pool: BP.BufferPool, stats: SS.SizeTable<JsString>)
    reads result, result.buffer, pool, stats
  {
    Held(result, pool, stats) && result.View() == bytes
  }

  /** Every result not released shows its own bytes, and no two of them share anything. */
  ghost predicate AllShow(
    results: seq<BinaryBodyResult>, bytes: seq<seq<Byte>>, released: set<nat>, pool: BP.BufferPool,
    stats: SS.SizeTable<JsString>)
    reads results, (set r | r in results :: r.buffer), pool, stats
  {
    && |results| == |bytes|
    && (forall i: nat :: i < |results| ==> results[i] !in stats.Repr && results[i].released == (i in released))
    && (forall i: nat :: i < |results| && i !in released ==> Shows(results[i], bytes[i], pool, stats))
    && (forall i: nat, j: nat :: i < j < |results| ==> results[i] != results[j])
    && (forall i: nat, j: nat :: i < j < |results| && i !in released && j !in released ==>
         results[i].buffer != results[j].buffer)
  }

  lemma AllAreReadable(
    results: seq<BinaryBodyResult>, bytes: seq<seq<Byte>>, released: set<nat>, pool: BP.BufferPool,
    stats: SS.SizeTable<JsString>)
    requires AllShow(results, bytes, released, pool, stats)
    ensures |results| == |bytes|
    ensures forall i: nat :: i < |results| ==> results[i].released == (i in released)
    ensures forall i: nat :: i < |results| && !results[i].released ==> results[i].View() == bytes[i]
  {
  }

  lemma NothingShown(pool: BP.BufferPool, stats: SS.SizeTable<JsString>)
    ensures AllShow([], [], {}, pool, stats)
  {
  }

  lemma OneMoreShows(
    results: seq<BinaryBodyResult>, bytes: seq<seq<Byte>>, released: set<nat>, result: BinaryBodyResult,
    shown: seq<Byte>, pool: BP.BufferPool, stats: SS.SizeTable<JsString>)
    requires AllShow(results, bytes, released, pool, stats) && forall i :: i in released ==> i < |results|
    requires Shows(result, shown, pool, stats)
    requires forall i: nat :: i < |results| ==> results[i] != result
    requires forall i: nat :: i < |results| && i !in released ==> results[i].buffer != result.buffer
    ensures AllShow(results + [result], bytes + [shown], released, pool, stats)
  {
    hide BinaryBodyResult.View;
  }

  ghost predicate Ready(lane: BinaryLane, stats: SS.SizeTable<JsString>)
    reads lane.pool, lane.pool.live, stats, stats.Repr
  {
    && lane.pool.Valid() && stats.Valid() && PoolApart(lane.pool, stats)
    && stats as object != lane && lane !in stats.Repr && lane.pool as object != lane
  }

  /** Encoding leaves every result readable; a new one shares nothing with them. */
  method EncodeApart<V>(
    lane: BinaryLane, stats: SS.SizeTable<JsString>, op: Op<V>, ghost results: seq<BinaryBodyResult>,
    ghost bytes: seq<seq<Byte>>, ghost released: set<nat>)
    returns (r: Result<BinaryBodyResult, Failure>)
    requires op.Encode? && 0 < op.opts.ringSize && Ready(lane, stats)
    requires AllShow(results, bytes, released, lane.pool, stats)
    modifies lane, lane.pool, lane.pool.FreeBuffers(), stats, stats.Repr
    ensures Ready(lane, stats) && fresh(stats.Repr - old(stats.Repr))
    ensures fresh(lane.pool.FreeBuffers() - old(lane.pool.FreeBuffers()))
    ensures AllShow(results, bytes, released, lane.pool, stats)
    ensures r.Ok? <==> Succeeds(op)
    ensures r.Ok? ==> Shows(r.value, Envelope(op.chain, op.body, op.isResponse), lane.pool, stats) && fresh(r.value)
    ensures r.Ok? ==> (r.value.lease.Some? ==> fresh(r.value.lease.value))
    ensures r.Ok? ==> fresh(r.value.buffer) || r.value.buffer in old(lane.pool.FreeBuffers())
    ensures r.Ok? ==> forall i: nat :: i < |results| && i !in released ==> results[i].buffer != r.value.buffer
  {
    hide SS.SizeTable.Valid, BP.BufferPool.Valid, Envelope, FirstFailure, PoolApart, BP.FreeOf,
      BP.BufferPool.FreeBuffers, BinaryBodyResult.View, RecordEntries, RecordedWithRetry, Surfaced, PooledSize,
      PooledLease;
    r := lane.SerializeBinaryBody(op.chain, op.body, op.isResponse, stats, op.opts);
    forall i: nat | i < |results| && i !in released ensures Shows(results[i], bytes[i], lane.pool, stats) {
      assert old(Shows(results[i], bytes[i], lane.pool, stats));
    }
  }

  /** Encodes one envelope and keeps the result, if there is one. */
  method EncodeNext<V>(
    lane: BinaryLane, stats: SS.SizeTable<JsString>, op: Op<V>, results: seq<BinaryBodyResult>,
    ghost bytes: seq<seq<Byte>>, ghost released: set<nat>)
    returns (results': seq<BinaryBodyResult>)
    requires op.Encode? && 0 < op.opts.ringSize && Ready(lane, stats)
    requires AllShow(results, bytes, released, lane.pool, stats) && forall i :: i in released ==> i < |results|
    modifies lane, lane.pool, lane.pool.FreeBuffers(), stats, stats.Repr
    ensures Ready(lane, stats) && fresh(stats.Repr - old(stats.Repr))
    ensures fresh(lane.pool.FreeBuffers() - old(lane.pool.FreeBuffers()))
    ensures |results'| == |results| + if Succeeds(op) then 1 else 0
    ensures forall r :: r in results' && r !in results ==>
              && fresh(r) && (r.lease.Some? ==> fresh(r.lease.value))
              && (fresh(r.buffer) || r.buffer in old(lane.pool.FreeBuffers()))
    ensures var shown := bytes + (if Succeeds(op) then [Envelope(op.chain, op.body, op.isResponse)] else []);
            AllShow(results', shown, released, lane.pool, stats)
  {
    hide AllShow, Ready, Shows, Succeeds, Envelope;
    var r := EncodeApart(lane, stats, op, results, bytes, released);
    results' := results;
    if r.Ok? {
      OneMoreShows(results, bytes, released, r.value, Envelope(op.chain, op.body, op.isResponse), lane.pool, stats);
      results' := results + [r.value];
    } else {
      assert bytes + [] == bytes;
    }
  }

  lemma OneFewerShows(
    results: seq<BinaryBodyResult>, bytes: seq<seq<Byte>>, released: set<nat>, at: nat, pool: BP.BufferPool,
    stats: SS.SizeTable<JsString>)
    requires |results| == |bytes|
    requires forall i: nat :: i < |results| ==>
               results[i] !in stats.Repr && results[i].released == (i in released || i == at)
    requires forall i: nat :: i < |results| && i !in released && i != at ==> Shows(results[i], bytes[i], pool, stats)
    requires forall i: nat, j: nat :: i < j < |results| ==> results[i] != results[j]
    requires forall i: nat, j: nat :: i < j < |results| && i !in released && j !in released ==>
               results[i].buffer != results[j].buffer
    ensures AllShow(results, bytes, released + {at}, pool, stats)
  {
    hide Shows;
  }

  /** Releasing one result leaves the others readable. */
  method ReleaseOne(
    lane: BinaryLane, stats: SS.SizeTable<JsString>, at: nat, opts: BP.PoolOptions, results: seq<BinaryBodyResult>,
    ghost bytes: seq<seq<Byte>>, ghost released: set<nat>)
    requires at < |results| && Ready(lane, stats) && AllShow(results, bytes, released, lane.pool, stats)
    modifies lane.pool, results[at], if results[at].lease.Some? then {results[at].lease.value} else {}
    ensures Ready(lane, stats) && lane.pool.FreeBuffers() <= old(lane.pool.FreeBuffers()) + {results[at].buffer}
    ensures AllShow(results, bytes, released + {at}, lane.pool, stats)
  {
    hide SS.SizeTable.Valid, BP.BufferPool.Valid, BP.FreeOf, BP.BufferPool.FreeBuffers;
    if at !in released {
      assert Shows(results[at], bytes[at], lane.pool, stats);
    }
    results[at].Release(lane.pool, opts);
    forall i: nat | i < |results| && i !in released && i != at ensures Shows(results[i], bytes[i], lane.pool, stats) {
      assert old(Shows(results[i], bytes[i], lane.pool, stats));
      if at !in released {
        assert results[i].buffer != results[at].buffer;
      }
    }
    OneFewerShows(results, bytes, released, at, lane.pool, stats);
  }

  /** The whole schedule: encodes and releases in any order, through one lane and one set of statistics. */
  method RunLane<V>(
    lane: BinaryLane, stats: SS.SizeTable<JsString>, ops: seq<Op<V>>) returns (results: seq<BinaryBodyResult>)
    requires Ready(lane, stats) && forall op :: op in ops && op.Encode? ==> 0 < op.opts.ringSize
    modifies lane, lane.pool, lane.pool.FreeBuffers(), stats, stats.Repr
    ensures Ready(lane, stats)
    ensures |results| == |Envelopes(ops)|
    ensures forall i: nat :: i < |results| ==> results[i].released == (i in ReleasedBy(ops))
    ensures forall i: nat :: i < |results| && !results[i].released ==> results[i].View() == Envelopes(ops)[i]
    ensures AllShow(results, Envelopes(ops), ReleasedBy(ops), lane.pool, stats)
  {
    hide Ready, Shows, AllShow, FirstFailure, Envelope;
    results := [];
    NothingShown(lane.pool, stats);
    for k := 0 to |ops|
      invariant Ready(lane, stats) && fresh(stats.Repr - old(stats.Repr))
      invariant fresh(lane.pool.FreeBuffers() - old(lane.pool.FreeBuffers()))
      invariant AllShow(results, Envelopes(ops[..k]), ReleasedBy(ops[..k]), lane.pool, stats)
      invariant |results| == |Envelopes(ops[..k])| && forall i :: i in ReleasedBy(ops[..k]) ==> i < |results|
      invariant forall r :: r in results ==>
                  && fresh(r) && (r.lease.Some? ==> fresh(r.lease.value))
                  && (fresh(r.buffer) || r.buffer in old(lane.pool.FreeBuffers()))
    {
      ScheduleStep(ops, k);
      match ops[k]
      case Encode(_, _, _, _) =>
        results := EncodeNext(lane, stats, ops[k], results, Envelopes(ops[..k]), ReleasedBy(ops[..k]));
      case Release(at, opts) =>
        if at < |results| {
          assert results[at] in results;
          ReleaseOne(lane, stats, at, opts, results, Envelopes(ops[..k]), ReleasedBy(ops[..k]));
        }
    }
    assert ops[..|ops|] == ops;
    AllAreReadable(results, Envelopes(ops), ReleasedBy(ops), lane.pool, stats);
  }
}
