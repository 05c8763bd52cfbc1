/** Response-size statistics: a ring of recent observations per method id, mirrored by an ascending copy. */
module SizeStats {
  import opened Basics

  // ---------- What a window means ----------

  ghost predicate Ascending(s: seq<int>) {
    forall i, j :: 0 <= i < j < |s| ==> s[i] <= s[j]
  }

  function LastN(s: seq<int>, n: nat): seq<int> {
    if |s| <= n then s else s[|s| - n..]
  }

  function Insert(v: int, s: seq<int>): (r: seq<int>)
    ensures |r| == |s| + 1
  {
    if s == [] || v <= s[0] then [v] + s else [s[0]] + Insert(v, s[1..])
  }

  /** The reference order: plain insertion sort. */
  function Sort(s: seq<int>): (r: seq<int>)
    ensures |r| == |s|
  {
    if s == [] then [] else Insert(s[0], Sort(s[1..]))
  }

  lemma {:induction false} InsertKeepsElements(v: int, s: seq<int>)
    ensures multiset(Insert(v, s)) == multiset(s) + multiset{v}
  {
    if s != [] && s[0] < v {
      InsertKeepsElements(v, s[1..]);
      assert s == [s[0]] + s[1..];
    }
  }

  lemma {:induction false} InsertKeepsOrder(v: int, s: seq<int>)
    requires Ascending(s)
    ensures Ascending(Insert(v, s))
    ensures forall x :: x in Insert(v, s) ==> x == v || x in s
  {
    if s != [] && s[0] < v {
      var tail := Insert(v, s[1..]);
      InsertKeepsOrder(v, s[1..]);
      forall i | 0 <= i < |tail| ensures s[0] <= tail[i] {
        assert tail[i] in tail;
      }
    }
  }

  lemma {:induction false} SortSorts(s: seq<int>)
    ensures Ascending(Sort(s)) && multiset(Sort(s)) == multiset(s)
  {
    if s != [] {
      SortSorts(s[1..]);
      InsertKeepsOrder(s[0], Sort(s[1..]));
      InsertKeepsElements(s[0], Sort(s[1..]));
      assert s == [s[0]] + s[1..];
    }
  }

  lemma TailMultiset(a: seq<int>)
    requires a != []
    ensures multiset(a[1..]) == multiset(a) - multiset{a[0]}
    ensures a == [a[0]] + a[1..]
  {
    assert a == [a[0]] + a[1..];
  }

  lemma HeadIsLeast(a: seq<int>, x: int)
    requires Ascending(a) && x in multiset(a)
    ensures a != [] && a[0] <= x
  {
    assert x in a;
  }

  /** An ascending sequence is determined by its elements. */
  lemma {:induction false} AscendingIsUnique(a: seq<int>, b: seq<int>)
    requires Ascending(a) && Ascending(b) && multiset(a) == multiset(b)
    ensures a == b
    decreases |a|
  {
    if a == [] {
      assert |multiset(b)| == 0;
    } else {
      HeadsAgree(a, b);
      AscendingIsUnique(a[1..], b[1..]);
    }
  }

  lemma HeadsAgree(a: seq<int>, b: seq<int>)
    requires Ascending(a) && Ascending(b) && multiset(a) == multiset(b) && a != []
    ensures b != [] && a[0] == b[0]
    ensures Ascending(a[1..]) && Ascending(b[1..]) && multiset(a[1..]) == multiset(b[1..])
    ensures a == [a[0]] + a[1..] && b == [b[0]] + b[1..]
  {
    assert a[0] in multiset(a);
    HeadIsLeast(b, a[0]);
    assert b[0] in multiset(b);
    HeadIsLeast(a, b[0]);
    TailMultiset(a);
    TailMultiset(b);
  }

  /** `v` splits the window into `rank` values at most `v` and the rest at least `v`. */
  ghost predicate Splits(window: multiset<int>, rank: nat, v: int, lo: multiset<int>, hi: multiset<int>) {
    && window == lo + multiset{v} + hi
    && |lo| == rank
    && (forall x :: x in lo ==> x <= v)
    && (forall x :: x in hi ==> v <= x)
  }

  ghost predicate IsOrderStatistic(window: multiset<int>, rank: nat, v: int) {
    exists lo, hi :: Splits(window, rank, v, lo, hi)
  }

  lemma SortedIndexIsOrderStatistic(s: seq<int>, rank: nat)
    requires rank < |s|
    ensures IsOrderStatistic(multiset(s), rank, Sort(s)[rank])
  {
    SortSorts(s);
    AscendingSplits(Sort(s), rank);
  }

  lemma AscendingSplits(t: seq<int>, rank: nat)
    requires Ascending(t) && rank < |t|
    ensures IsOrderStatistic(multiset(t), rank, t[rank])
  {
    assert t == t[..rank] + [t[rank]] + t[rank + 1..];
    assert Splits(multiset(t), rank, t[rank], multiset(t[..rank]), multiset(t[rank + 1..]));
  }

  /** Order statistics are unique, so the rank alone fixes the predicted value. */
  lemma OrderStatisticIsUnique(window: multiset<int>, rank: nat, v: int, w: int)
    requires IsOrderStatistic(window, rank, v) && IsOrderStatistic(window, rank, w)
    ensures v == w
  {
    if v < w {
      StatisticsDoNotCross(window, rank, v, w);
    } else if w < v {
      StatisticsDoNotCross(window, rank, w, v);
    }
  }

  lemma StatisticsDoNotCross(window: multiset<int>, rank: nat, v: int, w: int)
    requires IsOrderStatistic(window, rank, v) && IsOrderStatistic(window, rank, w)
    ensures w <= v
  {
    var lo, hi :| Splits(window, rank, v, lo, hi);
    var lo', hi' :| Splits(window, rank, w, lo', hi');
    if v < w {
      SmallerHasLessBelow(window, v, lo, hi, w, lo', hi');
    }
  }

  lemma SmallerHasLessBelow(window: multiset<int>, v: int, lo: multiset<int>, hi: multiset<int>,
                            w: int, lo': multiset<int>, hi': multiset<int>)
    requires v < w
    requires Splits(window, |lo|, v, lo, hi) && Splits(window, |lo'|, w, lo', hi')
    ensures |lo| < |lo'|
  {
    var below := lo + multiset{v};
    forall x ensures below[x] <= lo'[x] {
      assert window[x] == lo'[x] + multiset{w}[x] + hi'[x];
      if x in below { assert x !in hi'; }
    }
    assert lo' == below + (lo' - below);
  }

  // ---------- The in-place sorted mirror ----------

  /** Index of the first slot of the ascending `sorted[..len]` holding a value at least `value`. */
  method LowerBound(sorted: array<int>, len: nat, value: int) returns (lo: nat)
    requires len <= sorted.Length && Ascending(sorted[..len])
    ensures lo <= len
    ensures forall i :: 0 <= i < lo ==> sorted[i] < value
    ensures forall i :: lo <= i < len ==> value <= sorted[i]
  {
    lo := 0;
    var hi := len;
    while lo < hi
      invariant lo <= hi <= len
      invariant forall i :: 0 <= i < lo ==> sorted[i] < value
      invariant forall i :: hi <= i < len ==> value <= sorted[i]
    {
      var mid := (lo + hi) / 2;
      assert sorted[..len][mid] == sorted[mid];
      if sorted[mid] < value {
        forall i | 0 <= i <= mid ensures sorted[i] < value {
          assert sorted[..len][i] <= sorted[..len][mid];
        }
        lo := mid + 1;
      } else {
        forall i | mid <= i < len ensures value <= sorted[i] {
          assert sorted[..len][mid] <= sorted[..len][i];
        }
        hi := mid;
      }
    }
  }

  method SortedInsert(sorted: array<int>, len: nat, value: int)
    requires len < sorted.Length && Ascending(sorted[..len])
    modifies sorted
    ensures Ascending(sorted[..len + 1])
    ensures multiset(sorted[..len + 1]) == multiset(old(sorted[..len])) + multiset{value}
  {
    ghost var was := sorted[..len];
    var at := LowerBound(sorted, len, value);
    if at < len {
      forall i | at < i <= len { sorted[i] := sorted[i - 1]; }
    }
    sorted[at] := value;
    assert sorted[..len + 1] == was[..at] + [value] + was[at..];
    InsertedAt(was, at, value);
  }

  lemma InsertedAt(s: seq<int>, at: nat, value: int)
    requires Ascending(s) && at <= |s|
    requires forall i :: 0 <= i < at ==> s[i] < value
    requires forall i :: at <= i < |s| ==> value <= s[i]
    ensures Ascending(s[..at] + [value] + s[at..])
    ensures multiset(s[..at] + [value] + s[at..]) == multiset(s) + multiset{value}
  {
    assert s == s[..at] + s[at..];
  }

  method SortedRemove(sorted: array<int>, len: nat, value: int)
    requires 0 < len <= sorted.Length && Ascending(sorted[..len]) && value in sorted[..len]
    modifies sorted
    ensures Ascending(sorted[..len - 1])
    ensures multiset(sorted[..len - 1]) == multiset(old(sorted[..len])) - multiset{value}
  {
    ghost var was := sorted[..len];
    var at := LowerBound(sorted, len, value);
    FirstNotBelow(was, at, value);
    if at < len - 1 {
      forall i | at <= i < len - 1 { sorted[i] := sorted[i + 1]; }
    }
    sorted[len - 1] := 0;
    assert sorted[..len - 1] == was[..at] + was[at + 1..];
    RemovedAt(was, at);
  }

  lemma RemovedAt(s: seq<int>, at: nat)
    requires Ascending(s) && at < |s|
    ensures Ascending(s[..at] + s[at + 1..])
    ensures multiset(s[..at] + s[at + 1..]) == multiset(s) - multiset{s[at]}
  {
    WithoutOne(s[..at], s[at], s[at + 1..]);
    assert s == s[..at] + [s[at]] + s[at + 1..];
  }

  lemma WithoutOne(a: seq<int>, x: int, b: seq<int>)
    ensures multiset(a + b) == multiset(a + [x] + b) - multiset{x}
  {
  }

  lemma FirstNotBelow(s: seq<int>, at: nat, value: int)
    requires Ascending(s) && value in s && at <= |s|
    requires forall i :: 0 <= i < at ==> s[i] < value
    requires forall i :: at <= i < |s| ==> value <= s[i]
    ensures at < |s| && s[at] == value
  {
    var k :| 0 <= k < |s| && s[k] == value;
    assert at <= k;
  }

  /** The window after one more observation: a full window of `n` drops its oldest value. */
  function Shift(window: seq<int>, n: nat, bytes: int): seq<int>
    requires 0 < n
  {
    (if |window| < n then window else window[1..]) + [bytes]
  }

  lemma LastNShifts(seen: seq<int>, n: nat, bytes: int)
    requires 0 < n
    ensures LastN(seen + [bytes], n) == Shift(LastN(seen, n), n, bytes)
  {
  }

  /** Keeps the mirror equal to the sorted window while the window shifts. */
  method Remirror(sorted: array<int>, count: nat, oldest: int, bytes: int, ghost window: seq<int>) returns (count': nat)
    requires 0 < sorted.Length && |window| == count <= sorted.Length
    requires sorted[..count] == Sort(window)
    requires count == sorted.Length ==> oldest == window[0]
    modifies sorted
    ensures count' == (if count == sorted.Length then count else count + 1)
    ensures sorted[..count'] == Sort(Shift(window, sorted.Length, bytes))
  {
    SortSorts(window);
    count' := count;
    if count == sorted.Length {
      OldestIsInMirror(window);
      SortedRemove(sorted, count, oldest);
    } else {
      count' := count + 1;
    }
    SortedInsert(sorted, count' - 1, bytes);
    ShiftElements(window, sorted.Length, bytes);
    SortSorts(Shift(window, sorted.Length, bytes));
    AscendingIsUnique(sorted[..count'], Sort(Shift(window, sorted.Length, bytes)));
  }

  lemma OldestIsInMirror(window: seq<int>)
    requires window != []
    ensures window[0] in Sort(window)
  {
    SortSorts(window);
    assert window[0] in multiset(Sort(window));
  }

  lemma ShiftElements(window: seq<int>, n: nat, bytes: int)
    requires 0 < n && |window| <= n
    ensures multiset(Shift(window, n, bytes)) ==
            (if |window| < n then multiset(window) else multiset(window) - multiset{window[0]}) + multiset{bytes}
  {
    if |window| == n {
      assert window == [window[0]] + window[1..];
    }
  }

  /** The observations a ring holds, oldest first. */
  function RingView(ring: seq<int>, idx: nat, count: nat): seq<int>
    requires idx < |ring| && count <= |ring|
  {
    if count < |ring| then ring[..count] else ring[idx..] + ring[..idx]
  }

  function NextSlot(idx: nat, n: nat): nat {
    if idx + 1 == n then 0 else idx + 1
  }

  lemma ModIsNextSlot(idx: nat, n: nat)
    requires idx < n
    ensures (idx + 1) % n == NextSlot(idx, n)
  {
    if idx + 1 < n {
      assert (idx + 1) / n == 0;
    }
  }

  /** Overwriting slot `idx` shifts the window the ring stands for. */
  lemma RingShifts(ring: seq<int>, idx: nat, count: nat, bytes: int)
    requires idx < |ring| && count <= |ring| && (count < |ring| ==> idx == count)
    ensures |RingView(ring, idx, count)| == count
    ensures count == |ring| ==> RingView(ring, idx, count)[0] == ring[idx]
    ensures var count' := if count == |ring| then count else count + 1;
            (count' < |ring| ==> NextSlot(idx, |ring|) == count') &&
            RingView(ring[idx := bytes], NextSlot(idx, |ring|), count') ==
              Shift(RingView(ring, idx, count), |ring|, bytes)
  {
    var now := ring[idx := bytes];
    if count == |ring| {
      var next := NextSlot(idx, |ring|);
      assert now[next..] + now[..next] == (ring[idx..] + ring[..idx])[1..] + [bytes];
    } else if count + 1 == |ring| {
      assert now[0..] + now[..0] == now == ring[..count] + [bytes];
    } else {
      assert now[..count + 1] == ring[..count] + [bytes];
    }
  }

  // ---------- One method's window ----------

  /** Recent sizes of one method: `ring` in arrival order, `sorted` the same values ascending. */
  class SizeWindow {
    const ring: array<int>
    const sorted: array<int>
    /** observations recorded, capped at the ring length */
    var count: nat
    /** next write position; the oldest observation once the ring is full */
    var idx: nat
    /** every size observed since this ring was built */
    ghost var seen: seq<int>

    ghost predicate Valid()
      reads this, ring, sorted
    {
      && ring != sorted && 0 < ring.Length == sorted.Length
      && idx < ring.Length
      && count <= ring.Length
      && (count < ring.Length ==> idx == count)
      && RingView(ring[..], idx, count) == LastN(seen, ring.Length)
      && sorted[..count] == Sort(LastN(seen, ring.Length))
    }

    constructor (ringSize: nat)
      requires 0 < ringSize
      ensures Valid() && fresh(ring) && fresh(sorted)
      ensures ring.Length == ringSize && seen == [] && count == 0
    {
      ring := new int[ringSize];
      sorted := new int[ringSize];
      count, idx := 0, 0;
      seen := [];
    }

    ghost function Observed(): History
      reads this
    {
      History(ring.Length, seen)
    }

    /** Records one observation; a full ring forgets its oldest one in both views. */
    method Observe(bytes: int)
      requires Valid()
      modifies this, ring, sorted
      ensures Valid()
      ensures seen == old(seen) + [bytes]
    {
      hide LastN, Sort, Shift, RingView, NextSlot;
      ghost var was := ring[..];
      RingShifts(was, idx, count, bytes);
      ModIsNextSlot(idx, ring.Length);
      LastNShifts(seen, ring.Length, bytes);
      count := Remirror(sorted, count, ring[idx], bytes, LastN(seen, ring.Length));
      ghost var mirror := sorted[..count];
      ring[idx] := bytes;
      assert ring[..] == was[idx := bytes];
      assert sorted[..count] == mirror;
      idx := (idx + 1) % ring.Length;
      seen := seen + [bytes];
    }

    /** The padded order statistic, read off the mirror without sorting. */
    method Quantile(quantile: real, pad: real) returns (size: int)
      requires Valid() && 0.0 <= quantile && 0 < count
      ensures LastN(seen, ring.Length) != []
      ensures size == PredictedFrom(LastN(seen, ring.Length), quantile, pad)
    {
      ghost var window := LastN(seen, ring.Length);
      var rank := Rank(quantile, count);
      assert sorted[..count][rank] == sorted[rank];
      size := Ceil(sorted[rank] as real * pad);
    }
  }

  // ---------- All tracked methods of one direction ----------

  datatype History = History(ringSize: nat, seen: seq<int>)

  /** Tracked ids in insertion order, each with what its ring has observed. */
  datatype Tracked<K> = Tracked(order: seq<K>, at: map<K, History>)

  ghost predicate Consistent<K>(t: Tracked<K>) {
    NoDup(t.order) && Elements(t.order) == t.at.Keys
  }

  /** Drops the `drop` oldest-inserted ids. */
  ghost function Without<K>(t: Tracked<K>, drop: nat): Tracked<K> {
    var n := if drop <= |t.order| then drop else |t.order|;
    Tracked(t.order[n..], t.at - Elements(t.order[..n]))
  }

  function DropCount(size: nat): nat {
    if size / 2 < 1 then 1 else size / 2
  }

  function Appended(h: History, bytes: int): History {
    History(h.ringSize, h.seen + [bytes])
  }

  /** The id gets an empty ring, in its old place or at the end. */
  function Emptied<K(==)>(t: Tracked<K>, key: K, ringSize: nat): Tracked<K> {
    Tracked(if key in t.at then t.order else t.order + [key], t.at[key := History(ringSize, [])])
  }

  /** A table at its cap loses its oldest half before another ring is started. */
  ghost function Roomy<K>(t: Tracked<K>, maxKeys: nat): Tracked<K> {
    if |t.order| >= maxKeys then Without(t, DropCount(|t.order|)) else t
  }

  ghost function Recorded<K>(t: Tracked<K>, key: K, bytes: int, ringSize: nat, maxKeys: nat): Tracked<K> {
    var u := if key in t.at && t.at[key].ringSize == ringSize then t else Emptied(Roomy(t, maxKeys), key, ringSize);
    u.(at := u.at[key := Appended(u.at[key], bytes)])
  }

  function Ceil(r: real): int {
    -((-r).Floor)
  }

  function Rank(quantile: real, count: nat): (r: nat)
    requires 0.0 <= quantile && 0 < count
    ensures r < count
  {
    FloorIsNonNegative(quantile, count);
    var at := (quantile * count as real).Floor;
    if at < count - 1 then at else count - 1
  }

  lemma FloorIsNonNegative(q: real, n: nat)
    requires 0.0 <= q
    ensures 0 <= (q * n as real).Floor
  {
    assert 0.0 <= q * n as real;
  }

  function WindowOf(h: History): seq<int> {
    LastN(h.seen, h.ringSize)
  }

  /** The padded order statistic of the id's window, or the padded fallback while it has none. */
  function Predicted<K(==)>(t: Tracked<K>, key: K, quantile: real, pad: real, fallback: int): int
    requires 0.0 <= quantile
  {
    if key !in t.at || WindowOf(t.at[key]) == [] then Ceil(fallback as real * pad)
    else PredictedFrom(WindowOf(t.at[key]), quantile, pad)
  }

  function PredictedFrom(window: seq<int>, quantile: real, pad: real): int
    requires 0.0 <= quantile && window != []
  {
    Ceil(Sort(window)[Rank(quantile, |window|)] as real * pad)
  }

  /** At quantile 1 and padding of at least 1 a prediction covers every size of its window. */
  lemma PredictionCoversWindow(window: seq<int>, pad: real, x: int)
    requires x in window && 0 <= x && 1.0 <= pad
    ensures x <= PredictedFrom(window, 1.0, pad)
  {
    var top := Sort(window)[|window| - 1];
    LastIsGreatest(window, x);
    assert (1.0 * |window| as real).Floor == |window|;
    PaddingGrows(top, pad);
  }

  lemma LastIsGreatest(window: seq<int>, x: int)
    requires x in window
    ensures x <= Sort(window)[|window| - 1]
  {
    SortSorts(window);
    assert x in multiset(Sort(window));
    assert x in Sort(window);
  }

  lemma PaddingGrows(v: int, pad: real)
    requires 0 <= v && 1.0 <= pad
    ensures v <= Ceil(v as real * pad)
  {
    assert v as real * 1.0 <= v as real * pad;
  }

  /** A prediction is the padded order statistic of rank min(count - 1, floor(quantile * count)). */
  lemma PredictionIsOrderStatistic<K>(t: Tracked<K>, key: K, quantile: real, pad: real, fallback: int, v: int)
    requires 0.0 <= quantile
    requires key in t.at && WindowOf(t.at[key]) != []
    requires IsOrderStatistic(multiset(WindowOf(t.at[key])), Rank(quantile, |WindowOf(t.at[key])|), v)
    ensures Predicted(t, key, quantile, pad, fallback) == Ceil(v as real * pad)
  {
    var window := WindowOf(t.at[key]);
    var rank := Rank(quantile, |window|);
    SortedIndexIsOrderStatistic(window, rank);
    OrderStatisticIsUnique(multiset(window), rank, v, Sort(window)[rank]);
  }

  // ---------- What is predicted and what is recorded ----------

  /** The window is the last n of what was seen, or all of it. */
  ghost predicate IsTail(window: seq<int>, seen: seq<int>, n: nat) {
    && (exists front :: seen == front + window)
    && |window| == if |seen| < n then |seen| else n
  }

  /** The rank is the whole part of quantile times count, but never past the last. */
  ghost predicate IsRank(rank: nat, quantile: real, count: nat) {
    && rank < count && rank as real <= quantile * count as real
    && (rank + 1 == count || quantile * count as real < (rank + 1) as real)
  }

  /** The least whole number that is not less. */
  ghost predicate IsCeiling(n: int, r: real) {
    n as real - 1.0 < r <= n as real
  }

  lemma TailIsLast(window: seq<int>, seen: seq<int>, n: nat)
    requires IsTail(window, seen, n)
    ensures window == LastN(seen, n)
  {
    var front :| seen == front + window;
  }

  /** What is predicted of an id is the padded order statistic of its last sizes, as many as its ring holds. */
  lemma PredictsTheOrderStatistic<K>(
    t: Tracked<K>, key: K, quantile: real, pad: real, fallback: int, window: seq<int>, rank: nat, v: int)
    requires 0.0 <= quantile && key in t.at && IsTail(window, t.at[key].seen, t.at[key].ringSize) && window != []
    requires IsRank(rank, quantile, |window|) && IsOrderStatistic(multiset(window), rank, v)
    ensures IsCeiling(Predicted(t, key, quantile, pad, fallback), v as real * pad)
  {
    hide IsOrderStatistic;
    TailIsLast(window, t.at[key].seen, t.at[key].ringSize);
    FloorIsNonNegative(quantile, |window|);
    assert Rank(quantile, |window|) == rank;
    PredictionIsOrderStatistic(t, key, quantile, pad, fallback, v);
  }

  /** Of an id without any size the padded fallback is predicted. */
  lemma PredictsTheFallback<K>(t: Tracked<K>, key: K, quantile: real, pad: real, fallback: int)
    requires 0.0 <= quantile && (key in t.at ==> t.at[key].seen == [] || t.at[key].ringSize == 0)
    ensures IsCeiling(Predicted(t, key, quantile, pad, fallback), fallback as real * pad)
  {
  }

  /** Recording a size of an id whose ring has the length asked for adds it to that id's history and changes nothing
      else. */
  lemma RecordingAppends<K>(t: Tracked<K>, key: K, bytes: int, ringSize: nat, maxKeys: nat)
    requires key in t.at && t.at[key].ringSize == ringSize
    ensures var now := Recorded(t, key, bytes, ringSize, maxKeys);
            && now.order == t.order && now.at.Keys == t.at.Keys
            && now.at[key] == History(ringSize, t.at[key].seen + [bytes])
            && forall other :: other in t.at && other != key ==> now.at[other] == t.at[other]
  {
  }

  /** Recording a size of any other id starts its history anew. A table at its cap first loses the older half of its
      ids, at least one; an id still there keeps its place, another one comes last. */
  lemma RecordingStartsAnew<K>(
    t: Tracked<K>, key: K, bytes: int, ringSize: nat, maxKeys: nat, dropped: seq<K>, kept: seq<K>)
    requires Consistent(t) && (key in t.at ==> t.at[key].ringSize != ringSize) && t.order == dropped + kept
    requires |dropped| == if |t.order| < maxKeys || t.order == [] then 0
                          else if |t.order| == 1 then 1 else |t.order| / 2
    ensures var now := Recorded(t, key, bytes, ringSize, maxKeys);
            && now.order == (if key in kept then kept else kept + [key])
            && now.at.Keys == Elements(kept) + {key} && now.at[key] == History(ringSize, [bytes])
            && forall other :: other in kept && other != key ==> other in t.at && now.at[other] == t.at[other]
  {
    hide NoDup;
    RoomIsMade(t, maxKeys, dropped, kept);
    StartedAnew(Roomy(t, maxKeys), key, bytes, ringSize, maxKeys, kept);
  }

  lemma RoomIsMade<K>(t: Tracked<K>, maxKeys: nat, dropped: seq<K>, kept: seq<K>)
    requires Consistent(t) && t.order == dropped + kept
    requires |dropped| == if |t.order| < maxKeys || t.order == [] then 0
                          else if |t.order| == 1 then 1 else |t.order| / 2
    ensures var u := Roomy(t, maxKeys);
            u.order == kept && u.at.Keys == Elements(kept) && forall k :: k in kept ==> k in t.at && u.at[k] == t.at[k]
  {
    hide NoDup, Elements, Without;
    assert t.order[|dropped|..] == kept && t.order[..|dropped|] == dropped;
    SplitOrder(t.order, |dropped|);
    if |t.order| < maxKeys {
      NothingTaken(t.order);
      assert dropped == t.order[..0] && kept == t.order;
    } else {
      WithoutIs(t, DropCount(|t.order|), dropped, kept);
    }
    KeptAreTracked(t, kept);
  }

  lemma WithoutIs<K>(t: Tracked<K>, drop: nat, dropped: seq<K>, kept: seq<K>)
    requires t.order == dropped + kept && |dropped| == if drop <= |t.order| then drop else |t.order|
    ensures Without(t, drop) == Tracked(kept, t.at - Elements(dropped))
  {
    assert t.order[|dropped|..] == kept && t.order[..|dropped|] == dropped;
  }

  lemma KeptAreTracked<K>(t: Tracked<K>, kept: seq<K>)
    requires Elements(t.order) == t.at.Keys && Elements(kept) <= Elements(t.order)
    ensures forall k :: k in kept ==> k in t.at && k in Elements(kept)
  {
  }

  lemma StartedAnew<K>(u: Tracked<K>, key: K, bytes: int, ringSize: nat, maxKeys: nat, kept: seq<K>)
    requires u.order == kept && u.at.Keys == Elements(kept)
    ensures var e := Emptied(u, key, ringSize);
            var now := e.(at := e.at[key := Appended(e.at[key], bytes)]);
            && now.order == (if key in kept then kept else kept + [key])
            && now.at.Keys == Elements(kept) + {key} && now.at[key] == History(ringSize, [bytes])
            && forall other :: other in kept && other != key ==> other in u.at && now.at[other] == u.at[other]
  {
    assert key in u.at <==> key in kept;
  }

  // ---------- Whole runs ----------

  ghost function RecordAll<K>(obs: seq<(K, int)>, ringSize: nat, maxKeys: nat): Tracked<K> {
    if obs == [] then Tracked([], map[])
    else
      var last := obs[|obs| - 1];
      Recorded(RecordAll(obs[..|obs| - 1], ringSize, maxKeys), last.0, last.1, ringSize, maxKeys)
  }

  /** The sizes observed for one id, in order. */
  ghost function SizesOf<K>(obs: seq<(K, int)>, key: K): seq<int> {
    if obs == [] then []
    else
      var last := obs[|obs| - 1];
      SizesOf(obs[..|obs| - 1], key) + if last.0 == key then [last.1] else []
  }

  lemma WithoutKeepsConsistent<K>(t: Tracked<K>, drop: nat)
    requires Consistent(t)
    ensures Consistent(Without(t, drop))
    ensures |Without(t, drop).order| == (if drop <= |t.order| then |t.order| - drop else 0)
  {
    SplitOrder(t.order, if drop <= |t.order| then drop else |t.order|);
  }

  lemma EmptiedKeepsConsistent<K>(t: Tracked<K>, key: K, ringSize: nat)
    requires Consistent(t)
    ensures Consistent(Emptied(t, key, ringSize))
    ensures |Emptied(t, key, ringSize).order| <= |t.order| + 1
  {
    AppendedKey(t.order, key);
  }

  /** However many ids are recorded, the cap holds and the newest id is tracked. */
  lemma {:induction false} RunsStayWithinCap<K>(obs: seq<(K, int)>, ringSize: nat, maxKeys: nat)
    ensures var t := RecordAll(obs, ringSize, maxKeys);
            && Consistent(t)
            && |t.order| <= (if maxKeys == 0 then 1 else maxKeys)
            && (obs != [] ==> obs[|obs| - 1].0 in t.at)
  {
    if obs != [] {
      var before, last := obs[..|obs| - 1], obs[|obs| - 1];
      RunsStayWithinCap(before, ringSize, maxKeys);
      RecordedStaysWithinCap(RecordAll(before, ringSize, maxKeys), last.0, last.1, ringSize, maxKeys);
    }
  }

  lemma RecordedStaysWithinCap<K>(t: Tracked<K>, key: K, bytes: int, ringSize: nat, maxKeys: nat)
    requires Consistent(t) && |t.order| <= (if maxKeys == 0 then 1 else maxKeys)
    ensures var t' := Recorded(t, key, bytes, ringSize, maxKeys);
            && Consistent(t') && key in t'.at
            && |t'.order| <= (if maxKeys == 0 then 1 else maxKeys)
  {
    hide NoDup, Elements;
    WithoutKeepsConsistent(t, DropCount(|t.order|));
    EmptiedKeepsConsistent(Roomy(t, maxKeys), key, ringSize);
  }

  /** While the ids come from a route table no larger than the cap, no id ever loses an observation. */
  lemma {:induction false} RouteTableNeverEvicts<K>(
    obs: seq<(K, int)>, routes: set<K>, ringSize: nat, maxKeys: nat, key: K)
    requires forall i :: 0 <= i < |obs| ==> obs[i].0 in routes
    requires |routes| <= maxKeys
    ensures var t := RecordAll(obs, ringSize, maxKeys);
            && Consistent(t) && Elements(t.order) <= routes
            && (key in t.at <==> SizesOf(obs, key) != [])
            && (key in t.at ==> t.at[key] == History(ringSize, SizesOf(obs, key)))
  {
    if obs != [] {
      var before, last := obs[..|obs| - 1], obs[|obs| - 1];
      RouteTableNeverEvicts(before, routes, ringSize, maxKeys, key);
      RouteTableNeverEvicts(before, routes, ringSize, maxKeys, last.0);
      var t := RecordAll(before, ringSize, maxKeys);
      if last.0 !in t.at {
        RoomForOneMore(t.order, routes, last.0);
        AppendedKey(t.order, last.0);
      }
    }
  }

  lemma RoomForOneMore<K>(order: seq<K>, routes: set<K>, key: K)
    requires NoDup(order) && Elements(order) <= routes && key in routes && key !in Elements(order)
    ensures |order| < |routes|
  {
    NoDupCardinality(order);
    CardinalityGrows(Elements(order), routes - {key});
  }

  // ---------- The table of one direction ----------

  lemma SplitOrder<K>(order: seq<K>, n: nat)
    requires NoDup(order) && n <= |order|
    ensures NoDup(order[n..])
    ensures Elements(order[n..]) == Elements(order) - Elements(order[..n])
    ensures n < |order| ==> Elements(order[..n + 1]) == Elements(order[..n]) + {order[n]}
  {
    assert order == order[..n] + order[n..];
  }

  lemma AppendedKey<K>(order: seq<K>, key: K)
    requires NoDup(order)
    ensures Elements(order + [key]) == Elements(order) + {key}
    ensures key !in Elements(order) ==> NoDup(order + [key])
    ensures key in Elements(order) ==> Elements(order) + {key} == Elements(order)
  {
  }

  lemma NothingTaken<K>(order: seq<K>)
    ensures Elements(order[..0]) == {}
  {
  }

  /** Two windows share no object. */
  ghost predicate WindowsApart(a: SizeWindow, b: SizeWindow) {
    a != b && a.ring != b.ring && a.ring != b.sorted && a.sorted != b.ring && a.sorted != b.sorted
  }

  lemma OutsiderIsApart(repr: set<object>, inside: SizeWindow, outside: SizeWindow)
    requires inside in repr && inside.ring in repr && inside.sorted in repr
    requires outside !in repr && outside.ring !in repr && outside.sorted !in repr
    ensures WindowsApart(inside, outside) && WindowsApart(outside, inside)
  {
  }

  /** Deletes up to `drop` keys in insertion order. */
  method DropFirst<K(==), V>(order: seq<K>, entries: map<K, V>, drop: nat) returns (order': seq<K>, entries': map<K, V>)
    requires NoDup(order) && Elements(order) == entries.Keys
    ensures var n := if drop <= |order| then drop else |order|;
            order' == order[n..] && entries' == entries - Elements(order[..n])
    ensures NoDup(order') && Elements(order') == entries'.Keys
  {
    hide NoDup, Elements;
    order', entries' := order, entries;
    NothingTaken(order);
    var n := 0;
    while n < drop && order' != []
      invariant n <= drop && n <= |order|
      invariant order' == order[n..]
      invariant entries' == entries - Elements(order[..n])
    {
      SplitOrder(order, n);
      entries' := entries' - {order'[0]};
      order' := order'[1..];
      n := n + 1;
    }
    SplitOrder(order, n);
  }

  /** A window that belongs to the table and has seen what the table says it has. */
  ghost predicate Sound(e: SizeWindow, h: History, repr: set<object>)
    reads e, repr
  {
    && e in repr && e.ring in repr && e.sorted in repr
    && e.Valid() && e.Observed() == h
  }

  lemma EmptyIsSound(e: SizeWindow, repr: set<object>)
    requires e.Valid() && e.seen == [] && e in repr && e.ring in repr && e.sorted in repr
    ensures Sound(e, History(e.ring.Length, []), repr)
  {
  }

  /** The ids tracked in one direction, with insertion order kept as a Map keeps it. */
  class SizeTable<K(==)> {
    var order: seq<K>
    var entries: map<K, SizeWindow>
    /** what the rings have observed, id by id */
    ghost var history: map<K, History>

    /** every object the table has allocated */
    ghost var Repr: set<object>

    ghost predicate Holds(k: K)
      requires k in entries && k in history
      reads this, Repr
    {
      entries[k] in Repr && Sound(entries[k], history[k], Repr)
    }

    ghost predicate Valid()
      reads this, Repr
    {
      && this !in Repr
      && NoDup(order) && Elements(order) == entries.Keys
      && history.Keys == entries.Keys
      && (forall k :: k in entries ==> Holds(k))
      && (forall j, k :: j in entries && k in entries && j != k ==> WindowsApart(entries[j], entries[k]))
    }

    ghost function Model(): Tracked<K>
      reads this
    {
      Tracked(order, history)
    }

    constructor ()
      ensures Valid() && Repr == {} && Model() == Tracked([], map[])
    {
      order, entries := [], map[];
      history, Repr := map[], {};
    }

    /** How many observations a key has. */
    method ObservationCount(key: K) returns (n: nat)
      requires Valid()
      ensures n == if key in history then |WindowOf(history[key])| else 0
    {
      n := 0;
      if key in entries {
        n := entries[key].count;
      }
    }

    method PredictSize(key: K, quantile: real, pad: real, fallback: int) returns (size: int)
      requires Valid() && 0.0 <= quantile
      ensures size == Predicted(Model(), key, quantile, pad, fallback)
    {
      if key !in entries || entries[key].count == 0 {
        size := Ceil(fallback as real * pad);
      } else {
        size := entries[key].Quantile(quantile, pad);
      }
    }

    /** Drops the oldest-inserted half. */
    method EvictOldest()
      requires Valid()
      modifies this
      ensures Valid() && Repr == old(Repr)
      ensures Model() == Without(old(Model()), DropCount(|old(order)|))
    {
      hide SizeWindow.Valid, NoDup, Elements;
      var drop := DropCount(|order|);
      order, entries := DropFirst(order, entries, drop);
      history := Without(old(Model()), drop).at;
      forall k | k in entries ensures Holds(k) {
        assert old(Holds(k));
      }
    }

    /** Gives the id an empty ring, in its old place or at the end. */
    method StartRing(key: K, ringSize: nat)
      requires Valid() && 0 < ringSize
      modifies this
      ensures Valid() && fresh(Repr - old(Repr))
      ensures key in entries && entries[key].ring.Length == ringSize
      ensures Model() == Emptied(old(Model()), key, ringSize)
    {
      hide SizeWindow.Valid, NoDup, Elements, WindowsApart;
      var entry := new SizeWindow(ringSize);
      forall k | k in entries ensures WindowsApart(entries[k], entry) && WindowsApart(entry, entries[k]) {
        assert Holds(k);
        OutsiderIsApart(Repr, entries[k], entry);
      }
      Repr := Repr + {entry, entry.ring, entry.sorted};
      forall k | k in entries ensures Holds(k) {
        assert old(Holds(k));
      }
      Install(key, entry);
    }

    method Install(key: K, entry: SizeWindow)
      requires Valid() && entry.Valid() && entry.seen == []
      requires entry in Repr && entry.ring in Repr && entry.sorted in Repr
      requires forall k :: k in entries ==> WindowsApart(entries[k], entry) && WindowsApart(entry, entries[k])
      modifies this
      ensures Valid() && Repr == old(Repr)
      ensures key in entries && entries[key] == entry
      ensures order == (if key in old(history) then old(order) else old(order) + [key])
      ensures history == old(history)[key := History(entry.ring.Length, [])]
    {
      hide SizeWindow.Valid, NoDup, Elements, WindowsApart, Sound;
      EmptyIsSound(entry, Repr);
      AppendedKey(order, key);
      order := if key in entries then order else order + [key];
      entries := entries[key := entry];
      history := history[key := History(entry.ring.Length, [])];
      forall k | k in entries && k != key ensures Holds(k) {
        assert old(Holds(k));
      }
    }

    method Touch(key: K, bytes: int)
      requires Valid() && key in entries
      modifies this, Repr
      ensures Valid() && Repr == old(Repr)
      ensures key in old(history) && order == old(order)
      ensures history == old(history)[key := Appended(old(history)[key], bytes)]
    {
      hide SizeWindow.Valid, NoDup, Elements;
      var entry := entries[key];
      entry.Observe(bytes);
      history := history[key := Appended(history[key], bytes)];
      forall k | k in entries ensures Holds(k) {
        if k != key { assert old(Holds(k)); }
      }
    }

    /** Records one observed size, rebuilding a ring whose configured length has changed. */
    method RecordSize(key: K, bytes: int, ringSize: nat, maxKeys: nat)
      requires Valid() && 0 < ringSize
      modifies this, Repr
      ensures Valid() && fresh(Repr - old(Repr))
      ensures Model() == Recorded(old(Model()), key, bytes, ringSize, maxKeys)
    {
      hide SizeWindow.Valid, NoDup, Elements;
      if !(key in entries && entries[key].ring.Length == ringSize) {
        if |order| >= maxKeys { EvictOldest(); }
        StartRing(key, ringSize);
      }
      Touch(key, bytes);
    }
  }
}
