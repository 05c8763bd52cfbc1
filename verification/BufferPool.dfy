/** Size-classed buffer pool: buffers are lent through leases and filed on per-class free lists. */
module BufferPool {
  import opened Basics

  type Buffer = array<Byte>

  datatype PoolOptions = PoolOptions(
    enabled: bool, minClassBytes: nat, maxClassBytes: nat, maxPerClass: nat, maxTotalBytes: nat)

  // ---------- Size classes ----------

  function Pow2(e: nat): (p: nat)
    ensures 0 < p
  {
    if e == 0 then 1 else 2 * Pow2(e - 1)
  }

  ghost predicate IsPow2(n: nat) {
    exists e: nat :: n == Pow2(e)
  }

  /** The first power of two from `p` upwards that is at least `n`. */
  function PowerFrom(p: nat, n: nat): nat
    requires 0 < p
    decreases n - p
  {
    if n <= p then p else PowerFrom(2 * p, n)
  }

  function SizeClassFor(bytes: int, minClassBytes: nat): nat {
    if bytes <= minClassBytes then minClassBytes else PowerFrom(1, bytes)
  }

  lemma {:induction false} PowerFromIsNext(e: nat, n: nat)
    requires e == 0 || Pow2(e - 1) < n
    ensures var r := PowerFrom(Pow2(e), n);
            IsPow2(r) && n <= r && (0 < n ==> r < 2 * n)
    decreases n - Pow2(e)
  {
    if Pow2(e) < n {
      PowerFromIsNext(e + 1, n);
    }
  }

  /** A class holds what was asked for, wastes less than half of it above the floor, and is the least such power. */
  lemma SizeClassIsTight(bytes: int, minClassBytes: nat)
    ensures var cls := SizeClassFor(bytes, minClassBytes);
            && bytes <= cls && minClassBytes <= cls && (bytes <= minClassBytes ==> cls == minClassBytes)
            && (minClassBytes < bytes ==> IsPow2(cls) && cls < 2 * bytes)
            && (forall c: nat :: IsPow2(c) && bytes <= c && minClassBytes < bytes ==> cls <= c)
  {
    if minClassBytes < bytes {
      PowerFromIsNext(0, bytes);
      var cls := SizeClassFor(bytes, minClassBytes);
      var e: nat :| cls == Pow2(e);
      forall c: nat | IsPow2(c) && bytes <= c ensures cls <= c {
        var f: nat :| c == Pow2(f);
        if f < e {
          PowersGrow(f, e);
        } else {
          PowersGrow(e, f);
        }
      }
    }
  }

  lemma {:induction false} PowersGrow(e: nat, f: nat)
    requires e <= f
    ensures Pow2(e) <= Pow2(f) && (e < f ==> 2 * Pow2(e) <= Pow2(f))
  {
    if e < f {
      PowersGrow(e, f - 1);
    }
  }

  /** Filing a buffer under the class it was made for finds that class again. */
  lemma SizeClassIsFixedPoint(bytes: int, minClassBytes: nat)
    ensures SizeClassFor(SizeClassFor(bytes, minClassBytes), minClassBytes) == SizeClassFor(bytes, minClassBytes)
  {
    var cls := SizeClassFor(bytes, minClassBytes);
    SizeClassIsTight(bytes, minClassBytes);
    SizeClassIsTight(cls, minClassBytes);
    if minClassBytes < bytes {
      assert SizeClassFor(cls, minClassBytes) <= cls;
    }
  }

  // ---------- Bytes on the free lists ----------

  ghost function HeldBytes<T>(lists: map<nat, seq<T>>): nat {
    if lists == map[] then 0
    else
      var k: nat :| k in lists;
      k * |lists[k]| + HeldBytes(lists - {k})
  }

  lemma {:induction false} HeldBytesSplit<T>(lists: map<nat, seq<T>>, k: nat)
    requires k in lists
    ensures HeldBytes(lists) == k * |lists[k]| + HeldBytes(lists - {k})
    decreases |lists|
  {
    var j: nat :| j in lists && HeldBytes(lists) == j * |lists[j]| + HeldBytes(lists - {j});
    if j != k {
      HeldBytesSplit(lists - {j}, k);
      HeldBytesSplit(lists - {k}, j);
      assert lists - {j} - {k} == lists - {k} - {j};
    }
  }

  function ListAt<T>(lists: map<nat, seq<T>>, k: nat): seq<T> {
    if k in lists then lists[k] else []
  }

  lemma HeldBytesUpdate<T>(lists: map<nat, seq<T>>, k: nat, list: seq<T>)
    ensures HeldBytes(lists[k := list]) == HeldBytes(lists) - k * |ListAt(lists, k)| + k * |list|
  {
    HeldBytesSplit(lists[k := list], k);
    assert lists[k := list] - {k} == lists - {k};
    if k in lists {
      HeldBytesSplit(lists, k);
    } else {
      assert lists - {k} == lists;
    }
  }

  /** What one free list may hold under the options it was filed with. */
  ghost predicate ListOk(list: seq<Buffer>, cls: nat, minClassBytes: nat, maxClassBytes: nat) {
    && NoDup(list)
    && (forall b :: b in list ==> b.Length == cls)
    && (list != [] ==> cls == SizeClassFor(cls, minClassBytes) && cls <= maxClassBytes)
  }

  ghost predicate ListsOk(lists: map<nat, seq<Buffer>>, minClassBytes: nat, maxClassBytes: nat) {
    forall k: nat :: k in lists ==> ListOk(lists[k], k, minClassBytes, maxClassBytes)
  }

  /** The buffer waits on no free list. */
  ghost predicate Unlisted(b: Buffer, lists: map<nat, seq<Buffer>>) {
    forall k: nat :: k in lists ==> b !in lists[k]
  }

  ghost predicate CapsHold(lists: map<nat, seq<Buffer>>, bytesHeld: nat, maxPerClass: nat, maxTotalBytes: nat) {
    && bytesHeld <= maxTotalBytes
    && forall k: nat :: k in lists ==> |lists[k]| <= maxPerClass
  }

  lemma HeldBytesPop<T>(lists: map<nat, seq<T>>, k: nat)
    requires k in lists && lists[k] != []
    ensures HeldBytes(lists) == k + HeldBytes(lists[k := lists[k][..|lists[k]| - 1]])
  {
    var n := |lists[k]|;
    HeldBytesUpdate(lists, k, lists[k][..n - 1]);
    assert k * n == k * (n - 1) + k;
  }

  lemma HeldBytesPush<T>(lists: map<nat, seq<T>>, k: nat, b: T)
    ensures HeldBytes(lists[k := ListAt(lists, k) + [b]]) == HeldBytes(lists) + k
  {
    var n := |ListAt(lists, k)|;
    HeldBytesUpdate(lists, k, ListAt(lists, k) + [b]);
    assert k * (n + 1) == k * n + k;
  }

  lemma ListOkPop(list: seq<Buffer>, cls: nat, minClassBytes: nat, maxClassBytes: nat)
    requires ListOk(list, cls, minClassBytes, maxClassBytes) && list != []
    ensures var rest := list[..|list| - 1];
            && ListOk(rest, cls, minClassBytes, maxClassBytes)
            && list[|list| - 1] !in rest && list[|list| - 1].Length == cls
            && forall b :: b !in list ==> b !in rest
  {
  }

  lemma ListOkPush(list: seq<Buffer>, b: Buffer, minClassBytes: nat, maxClassBytes: nat)
    requires ListOk(list, b.Length, minClassBytes, maxClassBytes) && b !in list
    requires b.Length == SizeClassFor(b.Length, minClassBytes) && b.Length <= maxClassBytes
    ensures ListOk(list + [b], b.Length, minClassBytes, maxClassBytes)
  {
    assert forall c :: c in list + [b] <==> c in list || c == b;
  }

  lemma ListOkLength(list: seq<Buffer>, b: Buffer, cls: nat, minClassBytes: nat, maxClassBytes: nat)
    requires ListOk(list, cls, minClassBytes, maxClassBytes) && b in list
    ensures b.Length == cls
  {
  }

  /** Taking the newest buffer of a class leaves it on no list. */
  lemma PopKeepsLists(lists: map<nat, seq<Buffer>>, cls: nat, minClassBytes: nat, maxClassBytes: nat)
    requires ListsOk(lists, minClassBytes, maxClassBytes) && cls in lists && lists[cls] != []
    ensures var list := lists[cls];
            var popped := lists[cls := list[..|list| - 1]];
            && ListsOk(popped, minClassBytes, maxClassBytes)
            && Unlisted(list[|list| - 1], popped) && list[|list| - 1].Length == cls
            && forall b :: Unlisted(b, lists) ==> Unlisted(b, popped)
  {
    hide ListOk;
    var list := lists[cls];
    var last := list[|list| - 1];
    ListOkPop(list, cls, minClassBytes, maxClassBytes);
    forall k: nat | k in lists && k != cls ensures last !in lists[k] {
      if last in lists[k] { ListOkLength(lists[k], last, k, minClassBytes, maxClassBytes); }
    }
  }

  /** Filing an unlisted buffer under its own length keeps every list sound. */
  lemma PushKeepsLists(lists: map<nat, seq<Buffer>>, b: Buffer, minClassBytes: nat, maxClassBytes: nat)
    requires ListsOk(lists, minClassBytes, maxClassBytes) && Unlisted(b, lists) && b.Length in lists
    requires b.Length == SizeClassFor(b.Length, minClassBytes) && b.Length <= maxClassBytes
    ensures var pushed := lists[b.Length := lists[b.Length] + [b]];
            && ListsOk(pushed, minClassBytes, maxClassBytes)
            && forall c :: c != b && Unlisted(c, lists) ==> Unlisted(c, pushed)
  {
    hide ListOk, SizeClassFor;
    ListOkPush(lists[b.Length], b, minClassBytes, maxClassBytes);
    assert forall c :: c in lists[b.Length] + [b] <==> c in lists[b.Length] || c == b;
  }

  ghost function FreeOf(lists: map<nat, seq<Buffer>>): set<Buffer> {
    set k: nat, b | k in lists && b in lists[k] :: b
  }

  lemma UnlistedIsNotFree(b: Buffer, lists: map<nat, seq<Buffer>>)
    requires Unlisted(b, lists)
    ensures b !in FreeOf(lists)
  {
  }

  lemma FreeOfPop(lists: map<nat, seq<Buffer>>, cls: nat)
    requires cls in lists && lists[cls] != []
    ensures var list := lists[cls];
            list[|list| - 1] in FreeOf(lists) && FreeOf(lists[cls := list[..|list| - 1]]) <= FreeOf(lists)
  {
    var list := lists[cls];
    assert list[|list| - 1] in list;
    var popped := lists[cls := list[..|list| - 1]];
    forall b | b in FreeOf(popped) ensures b in FreeOf(lists) {
      var k: nat :| k in popped && b in popped[k];
      assert b in lists[k];
    }
  }

  lemma FreeOfPush(lists: map<nat, seq<Buffer>>, cls: nat, more: seq<Buffer>)
    ensures FreeOf(lists[cls := ListAt(lists, cls) + more]) <= FreeOf(lists) + Elements(more)
  {
    var pushed := lists[cls := ListAt(lists, cls) + more];
    forall b | b in FreeOf(pushed) && b !in Elements(more) ensures b in FreeOf(lists) {
      var k: nat :| k in pushed && b in pushed[k];
      assert b in ListAt(lists, k);
    }
  }

  // ---------- Leases and the pool ----------

  /** A buffer borrowed from the pool; `pooled` is false for one the pool will never retain. */
  class Lease {
    const buffer: Buffer
    const cls: nat
    const pooled: bool
    var released: bool

    constructor (buffer: Buffer, cls: nat, pooled: bool)
      ensures this.buffer == buffer && this.cls == cls && this.pooled == pooled && !released
    {
      this.buffer, this.cls, this.pooled := buffer, cls, pooled;
      released := false;
    }
  }

  /** The buffer's length is still a class the pool retains. */
  predicate Eligible(opts: PoolOptions, cls: nat) {
    opts.enabled && cls == SizeClassFor(cls, opts.minClassBytes) && cls <= opts.maxClassBytes
  }

  /** A returned buffer is filed rather than left to the collector. */
  predicate Files(opts: PoolOptions, cls: nat, depth: nat, bytesHeld: nat) {
    Eligible(opts, cls) && depth < opts.maxPerClass && bytesHeld + cls <= opts.maxTotalBytes
  }

  /** A length is a class exactly when it is the floor or a larger power of two. */
  lemma IsClassIff(cls: nat, minClassBytes: nat)
    ensures SizeClassFor(cls, minClassBytes) == cls <==>
              cls == minClassBytes || (minClassBytes < cls && IsPow2(cls))
  {
    SizeClassIsTight(cls, minClassBytes);
  }

  /** A returned buffer is filed exactly when pooling is on, its length is a class within the range, its list has room
      and so has the pool; without room it counts as dropped. */
  lemma FilesExactlyWhen(opts: PoolOptions, cls: nat, depth: nat, bytesHeld: nat)
    ensures Eligible(opts, cls) <==>
              && opts.enabled && cls <= opts.maxClassBytes
              && (cls == opts.minClassBytes || (opts.minClassBytes < cls && IsPow2(cls)))
    ensures Files(opts, cls, depth, bytesHeld) <==>
              && opts.enabled && cls <= opts.maxClassBytes
              && (cls == opts.minClassBytes || (opts.minClassBytes < cls && IsPow2(cls)))
              && depth < opts.maxPerClass && bytesHeld + cls <= opts.maxTotalBytes
  {
    hide SizeClassFor, IsPow2;
    IsClassIff(cls, opts.minClassBytes);
  }

  /** A buffer lent for a request is filed again when it comes back, under the same options, if there is room. */
  lemma LentIsFiledAgain(opts: PoolOptions, minBytes: nat, depth: nat, bytesHeld: nat)
    requires opts.enabled && SizeClassFor(minBytes, opts.minClassBytes) <= opts.maxClassBytes
    ensures var cls := SizeClassFor(minBytes, opts.minClassBytes);
            Files(opts, cls, depth, bytesHeld) <==>
              depth < opts.maxPerClass && bytesHeld + cls <= opts.maxTotalBytes
  {
    hide SizeClassFor;
    SizeClassIsFixedPoint(minBytes, opts.minClassBytes);
  }

  class BufferPool {
    var freeLists: map<nat, seq<Buffer>>
    var hits: nat
    var misses: nat
    var dropped: nat
    var bytesHeld: nat
    /** the options the retained buffers were filed under */
    var filedEnabled: bool
    var filedMin: nat
    var filedMax: nat
    /** the pooled leases not yet released */
    ghost var live: set<Lease>

    ghost predicate Valid()
      reads this, live
    {
      && bytesHeld == HeldBytes(freeLists)
      && ListsOk(freeLists, filedMin, filedMax)
      && (!filedEnabled ==> freeLists == map[])
      && (forall l :: l in live ==> Lent(l))
      && (forall l, m :: l in live && m in live && l.buffer == m.buffer ==> l == m)
    }

    /** A live lease alone holds its buffer. */
    ghost predicate Lent(l: Lease)
      reads this, l
    {
      l.pooled && !l.released && l.cls == l.buffer.Length && Unlisted(l.buffer, freeLists)
    }

    /** Every buffer waiting on a free list. */
    ghost function FreeBuffers(): set<Buffer>
      reads this
    {
      FreeOf(freeLists)
    }

    /** Both retention caps hold. */
    ghost predicate Within(maxPerClass: nat, maxTotalBytes: nat)
      reads this
    {
      CapsHold(freeLists, bytesHeld, maxPerClass, maxTotalBytes)
    }

    ghost predicate FiledUnder(opts: PoolOptions)
      reads this
    {
      filedEnabled == opts.enabled && filedMin == opts.minClassBytes && filedMax == opts.maxClassBytes
    }

    /** The lists once the pool has caught up with the options: unchanged, or dropped altogether. */
    ghost function Kept(opts: PoolOptions): map<nat, seq<Buffer>>
      reads this
    {
      if FiledUnder(opts) then freeLists else map[]
    }

    constructor ()
      ensures Valid() && live == {} && freeLists == map[] && hits == misses == dropped == 0
    {
      freeLists, live := map[], {};
      hits, misses, dropped, bytesHeld := 0, 0, 0, 0;
      filedEnabled, filedMin, filedMax := false, 0, 0;
    }

    /** Heals the pool when pooling was switched or a class boundary moved. */
    method Reconcile(opts: PoolOptions)
      requires Valid()
      modifies this`freeLists, this`bytesHeld, this`filedEnabled, this`filedMin, this`filedMax
      ensures Valid() && FiledUnder(opts)
      ensures freeLists == old(Kept(opts))
      ensures bytesHeld == if old(FiledUnder(opts)) then old(bytesHeld) else 0
      ensures FreeBuffers() <= old(FreeBuffers())
      ensures forall p, t :: old(Within(p, t)) ==> Within(p, t)
    {
      if !(opts.enabled == filedEnabled && opts.minClassBytes == filedMin && opts.maxClassBytes == filedMax) {
        filedEnabled, filedMin, filedMax := opts.enabled, opts.minClassBytes, opts.maxClassBytes;
        freeLists, bytesHeld := map[], 0;
      }
    }

    /** Whether pooled serialization should be attempted at all. */
    method IsEnabled(opts: PoolOptions) returns (enabled: bool)
      requires Valid()
      modifies this`freeLists, this`bytesHeld, this`filedEnabled, this`filedMin, this`filedMax
      ensures Valid() && FiledUnder(opts) && freeLists == old(Kept(opts)) && enabled == opts.enabled
      ensures FreeBuffers() <= old(FreeBuffers())
    {
      Reconcile(opts);
      enabled := opts.enabled;
    }

    /** No live lease's buffer waits on a free list. */
    lemma LiveBuffersAreNotFree()
      requires Valid()
      ensures forall l :: l in live ==> l.buffer !in FreeBuffers()
    {
      forall l | l in live ensures l.buffer !in FreeBuffers() {
        assert Lent(l);
      }
    }

    /** Wraps an unlisted buffer nobody holds in a lease. */
    method MakeLease(buffer: Buffer, cls: nat) returns (lease: Lease)
      requires Valid() && buffer.Length == cls
      requires Unlisted(buffer, freeLists) && forall l :: l in live ==> l.buffer != buffer
      modifies this`live
      ensures Valid() && fresh(lease) && live == old(live) + {lease}
      ensures lease.buffer == buffer && lease.cls == cls && lease.pooled && !lease.released
      ensures buffer !in FreeBuffers()
    {
      lease := new Lease(buffer, cls, true);
      live := live + {lease};
    }

    /** Takes the newest free buffer of a class. */
    method Pop(cls: nat) returns (buffer: Buffer)
      requires Valid() && cls in freeLists && freeLists[cls] != []
      modifies this`freeLists, this`bytesHeld
      ensures Valid() && buffer.Length == cls && Unlisted(buffer, freeLists)
      ensures forall l :: l in live ==> l.buffer != buffer
      ensures var list := old(freeLists)[cls];
              buffer == list[|list| - 1] && freeLists == old(freeLists)[cls := list[..|list| - 1]]
      ensures buffer in old(FreeBuffers()) && FreeBuffers() <= old(FreeBuffers())
      ensures bytesHeld == old(bytesHeld) - cls
      ensures forall p, t :: old(Within(p, t)) ==> Within(p, t)
    {
      var list := freeLists[cls];
      buffer := list[|list| - 1];
      hide ListOk, HeldBytes, NoDup, FreeOf;
      FreeOfPop(freeLists, cls);
      PopKeepsLists(freeLists, cls, filedMin, filedMax);
      HeldBytesPop(freeLists, cls);
      freeLists := freeLists[cls := list[..|list| - 1]];
      bytesHeld := bytesHeld - cls;
    }

    /** Borrows a buffer of at least `minBytes`, the newest free one of its class first. */
    method AcquireBuffer(minBytes: nat, opts: PoolOptions) returns (lease: Lease)
      requires Valid()
      modifies this
      ensures Valid() && FiledUnder(opts)
      ensures fresh(lease) && !lease.released && minBytes <= lease.buffer.Length
      ensures lease.pooled == (opts.enabled && SizeClassFor(minBytes, opts.minClassBytes) <= opts.maxClassBytes)
      ensures live == old(live) + if lease.pooled then {lease} else {}
      ensures lease.cls == if lease.pooled then SizeClassFor(minBytes, opts.minClassBytes) else minBytes
      ensures var list := ListAt(old(Kept(opts)), lease.cls);
              if lease.pooled && list != [] then
                && lease.buffer == list[|list| - 1]
                && freeLists == old(Kept(opts))[lease.cls := list[..|list| - 1]]
                && hits == old(hits) + 1 && misses == old(misses)
              else
                && fresh(lease.buffer) && lease.buffer.Length == lease.cls
                && freeLists == old(Kept(opts))
                && hits == old(hits) && misses == old(misses) + 1
      ensures dropped == old(dropped)
      ensures fresh(lease.buffer) || lease.buffer in old(FreeBuffers())
      ensures lease.buffer !in FreeBuffers() && FreeBuffers() <= old(FreeBuffers())
      ensures forall p, t :: old(Within(p, t)) ==> Within(p, t)
    {
      hide ListOk, SizeClassFor, CapsHold, HeldBytes, FreeOf;
      Reconcile(opts);
      var cls := SizeClassFor(minBytes, opts.minClassBytes);
      SizeClassIsTight(minBytes, opts.minClassBytes);
      if !opts.enabled || cls > opts.maxClassBytes {
        misses := misses + 1;
        var direct := new Byte[minBytes];
        UnlistedIsNotFree(direct, freeLists);
        lease := new Lease(direct, minBytes, false);
      } else if cls in freeLists && freeLists[cls] != [] {
        var pooled := Pop(cls);
        hits := hits + 1;
        lease := MakeLease(pooled, cls);
      } else {
        misses := misses + 1;
        var made := new Byte[cls];
        lease := MakeLease(made, cls);
      }
    }

    /** Files a buffer nobody holds, unless the options or a cap say otherwise. */
    method ReturnToPool(buffer: Buffer, cls: nat, opts: PoolOptions)
      requires Valid() && cls == buffer.Length
      requires Unlisted(buffer, freeLists) && forall l :: l in live ==> l.buffer != buffer
      modifies this`freeLists, this`bytesHeld, this`filedEnabled, this`filedMin, this`filedMax, this`dropped
      ensures Valid() && FiledUnder(opts)
      ensures var list, held := ListAt(old(Kept(opts)), cls), if old(FiledUnder(opts)) then old(bytesHeld) else 0;
              && (forall k: nat :: ListAt(freeLists, k) ==
                   ListAt(old(Kept(opts)), k) + if k == cls && Files(opts, cls, |list|, held) then [buffer] else [])
              && FreeBuffers() <= old(FreeBuffers()) + {buffer}
              && dropped == old(dropped) + if Eligible(opts, cls) && !Files(opts, cls, |list|, held) then 1 else 0
      ensures old(Within(opts.maxPerClass, opts.maxTotalBytes)) ==> Within(opts.maxPerClass, opts.maxTotalBytes)
    {
      hide ListOk, SizeClassFor, HeldBytes, FreeOf;
      Reconcile(opts);
      assert Elements([buffer]) == {buffer};
      if opts.enabled && cls == SizeClassFor(buffer.Length, opts.minClassBytes) && cls <= opts.maxClassBytes {
        if cls !in freeLists { OpenList(cls); }
        if |freeLists[cls]| >= opts.maxPerClass || bytesHeld + cls > opts.maxTotalBytes {
          dropped := dropped + 1;
        } else {
          PushKeepsLists(freeLists, buffer, filedMin, filedMax);
          HeldBytesPush(freeLists, cls, buffer);
          FreeOfPush(freeLists, cls, [buffer]);
          freeLists := freeLists[cls := freeLists[cls] + [buffer]];
          bytesHeld := bytesHeld + cls;
        }
      }
    }

    method OpenList(cls: nat)
      requires Valid() && filedEnabled && cls !in freeLists
      modifies this`freeLists
      ensures Valid() && freeLists == old(freeLists)[cls := []] && FreeBuffers() <= old(FreeBuffers())
    {
      HeldBytesUpdate(freeLists, cls, []);
      assert ListOk([], cls, filedMin, filedMax);
      freeLists := freeLists[cls := []];
    }

    /** Ends a lease; a repeated or unpooled release does nothing at all. */
    method Release(lease: Lease, opts: PoolOptions)
      requires Valid() && (lease.pooled && !lease.released ==> lease in live)
      modifies this, lease
      ensures Valid() && live == old(live) - {lease}
      ensures lease.pooled ==> lease.released
      ensures !lease.pooled || old(lease.released) ==> unchanged(this) && unchanged(lease)
      ensures lease.pooled && !old(lease.released) ==> FiledUnder(opts)
      ensures FreeBuffers() <= old(FreeBuffers()) + {lease.buffer}
      ensures var list, held := ListAt(old(Kept(opts)), lease.cls), if old(FiledUnder(opts)) then old(bytesHeld) else 0;
              lease.pooled && !old(lease.released) ==>
                forall k: nat :: ListAt(freeLists, k) == ListAt(old(Kept(opts)), k) +
                  if k == lease.cls && Files(opts, lease.cls, |list|, held) then [lease.buffer] else []
      ensures hits == old(hits) && misses == old(misses)
      ensures old(Within(opts.maxPerClass, opts.maxTotalBytes)) ==> Within(opts.maxPerClass, opts.maxTotalBytes)
    {
      if !lease.pooled || lease.released {
        return;
      }
      lease.released := true;
      live := live - {lease};
      ReturnToPool(lease.buffer, lease.cls, opts);
    }
  }
}
