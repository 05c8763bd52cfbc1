/** The router as a compiler: nested routes flattened to one execution chain per path. */
module RouteTree {
  import opened Basics

  // ---------- Routes, methods and chains ----------

  datatype Kind = Route | MiddleFn | HeadersMiddleFn | RawMiddleFn

  datatype Serializer = Json | Binary | StringifyJson

  datatype SerializerMode = JsonMode | BinaryMode | StringifyMode | OptimisticMode

  datatype Def = Def(
    handler: nat,
    runOnError: bool,
    hasReturnData: bool,
    paramsCount: nat,
    serializer: SerializerMode)

  datatype Entry = Item(kind: Kind, def: Def) | Group(routes: seq<Keyed>) | NotARoute

  datatype Keyed = Keyed(key: string, entry: Entry)

  type Routes = seq<Keyed>

  datatype RemoteMethod = RemoteMethod(id: string, kind: Kind, pointer: seq<string>, nestLevel: nat, def: Def)

  datatype Chain = Chain(routeIndex: nat, methods: seq<RemoteMethod>, serializer: Serializer)

  datatype PathOptions = PathOptions(basePath: string, suffix: string)

  const MAX_ROUTE_NESTING: nat := 10
  const WORKFLOW_KEY: string := "mion-routes-flow"

  function JoinPointer(pointer: seq<string>): string {
    if pointer == [] then ""
    else if |pointer| == 1 then pointer[0]
    else JoinPointer(pointer[..|pointer| - 1]) + "/" + pointer[|pointer| - 1]
  }

  function BasePath(opts: PathOptions): string {
    var rooted := if "/" <= opts.basePath then opts.basePath else "/" + opts.basePath;
    if rooted[|rooted| - 1] == '/' then rooted else rooted + "/"
  }

  function RoutePath(id: string, opts: PathOptions): string {
    BasePath(opts) + id + opts.suffix
  }

  /** Under fixed options a path determines the id it was built from. */
  lemma RoutePathIsInjective(a: string, b: string, opts: PathOptions)
    requires RoutePath(a, opts) == RoutePath(b, opts)
    ensures a == b
  {
    var p, q, base := RoutePath(a, opts), RoutePath(b, opts), |BasePath(opts)|;
    assert |p| == base + |a| + |opts.suffix| && |q| == base + |b| + |opts.suffix|;
    assert a == p[base..base + |a|];
    assert b == q[base..base + |b|];
  }

  function SerializerCodeOf(mode: SerializerMode): Serializer {
    match mode
    case BinaryMode => Binary
    case StringifyMode => StringifyJson
    case OptimisticMode => StringifyJson
    case JsonMode => Json
  }

  predicate IsMiddle(e: Entry) {
    e.Item? && !e.kind.Route?
  }

  predicate IsRoute(e: Entry) {
    e.Item? && e.kind.Route?
  }

  function Executable(pointer: seq<string>, e: Entry, nestLevel: nat): RemoteMethod
    requires e.Item?
  {
    RemoteMethod(JoinPointer(pointer), e.kind, pointer, nestLevel, e.def)
  }

  // ---------- What the flattened router should hold ----------

  /** The middleFns among entries lo..hi of one level, in order. */
  function Middles(routes: Routes, pointer: seq<string>, level: nat, lo: nat, hi: nat): seq<RemoteMethod>
    requires lo <= hi <= |routes|
  {
    if lo == hi then []
    else
      var last := routes[hi - 1];
      Middles(routes, pointer, level, lo, hi - 1) +
      if IsMiddle(last.entry) then [Executable(pointer + [last.key], last.entry, level)] else []
  }

  lemma {:induction false} MiddlesSplit(routes: Routes, pointer: seq<string>, level: nat, lo: nat, mid: nat, hi: nat)
    requires lo <= mid <= hi <= |routes|
    ensures Middles(routes, pointer, level, lo, hi) ==
            Middles(routes, pointer, level, lo, mid) + Middles(routes, pointer, level, mid, hi)
  {
    if mid < hi {
      MiddlesSplit(routes, pointer, level, lo, mid, hi - 1);
    }
  }

  /** Two neighbouring routes see the same middleFns before and after them: the shortcut's justification. */
  lemma BetweenRoutesAgree(routes: Routes, pointer: seq<string>, level: nat, index: nat)
    requires 0 < index < |routes| && IsRoute(routes[index - 1].entry) && IsRoute(routes[index].entry)
    ensures Middles(routes, pointer, level, 0, index) == Middles(routes, pointer, level, 0, index - 1)
    ensures Middles(routes, pointer, level, index + 1, |routes|) == Middles(routes, pointer, level, index, |routes|)
  {
    MiddlesSplit(routes, pointer, level, index, index + 1, |routes|);
    assert Middles(routes, pointer, level, index, index) == [];
  }

  /** A leaf is named by the entry index taken at each level. */
  predicate IsLeaf(routes: Routes, address: seq<nat>) {
    && address != [] && address[0] < |routes|
    && (if |address| == 1 then IsRoute(routes[address[0]].entry)
        else routes[address[0]].entry.Group? && IsLeaf(routes[address[0]].entry.routes, address[1..]))
  }

  function PointerOf(routes: Routes, address: seq<nat>): seq<string>
    requires IsLeaf(routes, address)
  {
    var here := routes[address[0]];
    [here.key] + if |address| == 1 then [] else PointerOf(here.entry.routes, address[1..])
  }

  function LeafOf(routes: Routes, address: seq<nat>): Entry
    requires IsLeaf(routes, address)
    ensures IsRoute(LeafOf(routes, address))
  {
    var here := routes[address[0]];
    if |address| == 1 then here.entry else LeafOf(here.entry.routes, address[1..])
  }

  /** The middleFns listed before the leaf at every level, outermost level first. */
  function Before(routes: Routes, pointer: seq<string>, level: nat, address: seq<nat>): seq<RemoteMethod>
    requires IsLeaf(routes, address)
  {
    var here := routes[address[0]];
    Middles(routes, pointer, level, 0, address[0]) +
    if |address| == 1 then [] else Before(here.entry.routes, pointer + [here.key], level + 1, address[1..])
  }

  /** The middleFns listed after the leaf at every level, innermost level first. */
  function After(routes: Routes, pointer: seq<string>, level: nat, address: seq<nat>): seq<RemoteMethod>
    requires IsLeaf(routes, address)
  {
    var here := routes[address[0]];
    (if |address| == 1 then [] else After(here.entry.routes, pointer + [here.key], level + 1, address[1..])) +
    Middles(routes, pointer, level, address[0] + 1, |routes|)
  }

  function RouteOf(routes: Routes, pointer: seq<string>, level: nat, address: seq<nat>): RemoteMethod
    requires IsLeaf(routes, address)
  {
    Executable(pointer + PointerOf(routes, address), LeafOf(routes, address), level + |address| - 1)
  }

  /** The context a level is flattened in. */
  datatype Frame = Frame(
    pointer: seq<string>, level: nat, pre: seq<RemoteMethod>, post: seq<RemoteMethod>,
    start: seq<RemoteMethod>, end: seq<RemoteMethod>, opts: PathOptions)

  function ChainOf(f: Frame, before: seq<RemoteMethod>, route: RemoteMethod, after: seq<RemoteMethod>): Chain {
    Chain(|f.start| + |f.pre| + |before|,
          f.start + f.pre + before + [route] + after + f.post + f.end,
          SerializerCodeOf(route.def.serializer))
  }

  /** One chain per leaf: start, middleFns before it, the route, middleFns after it, end. */
  function ChainAt(routes: Routes, f: Frame, address: seq<nat>): Chain
    requires IsLeaf(routes, address)
  {
    ChainOf(f, Before(routes, f.pointer, f.level, address), RouteOf(routes, f.pointer, f.level, address),
            After(routes, f.pointer, f.level, address))
  }

  function PathAt(routes: Routes, f: Frame, address: seq<nat>): string
    requires IsLeaf(routes, address)
  {
    RoutePath(RouteOf(routes, f.pointer, f.level, address).id, f.opts)
  }

  /** The frame of a nested group: its pointer, and its surroundings pushed onto both lists. */
  function Nested(routes: Routes, f: Frame, index: nat): Frame
    requires index < |routes|
  {
    f.(pointer := f.pointer + [routes[index].key], level := f.level + 1,
       pre := f.pre + Middles(routes, f.pointer, f.level, 0, index),
       post := Middles(routes, f.pointer, f.level, index + 1, |routes|) + f.post)
  }

  /** The flattened chains of the first `n` entries, in registration order. */
  function Flatten(routes: Routes, f: Frame, n: nat): seq<(string, Chain)>
    requires n <= |routes|
    decreases routes, n
  {
    if n == 0 then []
    else
      var here := routes[n - 1];
      Flatten(routes, f, n - 1) +
      match here.entry
      case Item(kind, _) =>
        if kind.Route? then
          var route := Executable(f.pointer + [here.key], here.entry, f.level);
          [(RoutePath(route.id, f.opts),
            ChainOf(f, Middles(routes, f.pointer, f.level, 0, n - 1), route,
                    Middles(routes, f.pointer, f.level, n, |routes|)))]
        else []
      case Group(sub) => Flatten(sub, Nested(routes, f, n - 1), |sub|)
      case NotARoute => []
  }

  lemma NestedChainAgrees(routes: Routes, f: Frame, address: seq<nat>)
    requires IsLeaf(routes, address) && 1 < |address|
    ensures var sub := routes[address[0]].entry.routes;
            && ChainAt(routes, f, address) == ChainAt(sub, Nested(routes, f, address[0]), address[1..])
            && PathAt(routes, f, address) == PathAt(sub, Nested(routes, f, address[0]), address[1..])
  {
    hide Middles, Before, After, PointerOf, LeafOf, JoinPointer, RoutePath;
    NestedListsAgree(routes, f.pointer, f.level, address);
    var i, sub := address[0], routes[address[0]].entry.routes;
    var g := Nested(routes, f, i);
    var m1, m2 := Middles(routes, f.pointer, f.level, 0, i), Middles(routes, f.pointer, f.level, i + 1, |routes|);
    var b, a := Before(sub, g.pointer, g.level, address[1..]), After(sub, g.pointer, g.level, address[1..]);
    assert f.pointer + PointerOf(routes, address) == g.pointer + PointerOf(sub, address[1..]);
    var route := RouteOf(routes, f.pointer, f.level, address);
    assert f.start + f.pre + (m1 + b) + [route] + (a + m2) + f.post + f.end
        == f.start + (f.pre + m1) + b + [route] + a + (m2 + f.post) + f.end;
  }

  lemma NestedListsAgree(routes: Routes, pointer: seq<string>, level: nat, address: seq<nat>)
    requires IsLeaf(routes, address) && 1 < |address|
    ensures var i, sub, inner := address[0], routes[address[0]].entry.routes, pointer + [routes[address[0]].key];
            && Before(routes, pointer, level, address) ==
               Middles(routes, pointer, level, 0, i) + Before(sub, inner, level + 1, address[1..])
            && After(routes, pointer, level, address) ==
               After(sub, inner, level + 1, address[1..]) + Middles(routes, pointer, level, i + 1, |routes|)
            && PointerOf(routes, address) == [routes[i].key] + PointerOf(sub, address[1..])
            && LeafOf(routes, address) == LeafOf(sub, address[1..])
  {
  }

  /** Every leaf has its chain among the flattened ones. */
  lemma {:induction false} FlattenCoversLeaves(routes: Routes, f: Frame, n: nat, address: seq<nat>)
    requires n <= |routes| && IsLeaf(routes, address) && address[0] < n
    ensures (PathAt(routes, f, address), ChainAt(routes, f, address)) in Flatten(routes, f, n)
    decreases routes, n
  {
    hide ChainAt, PathAt, ChainOf, Nested, Executable, Middles, Flatten;
    var item := (PathAt(routes, f, address), ChainAt(routes, f, address));
    if address[0] < n - 1 {
      FlattenCoversLeaves(routes, f, n - 1, address);
      FlattenGrows(routes, f, n, item);
    } else if |address| == 1 {
      OwnChain(routes, f, address);
      RouteIsFlattened(routes, f, n - 1);
    } else {
      var sub := routes[n - 1].entry.routes;
      FlattenCoversLeaves(sub, Nested(routes, f, n - 1), |sub|, address[1..]);
      NestedChainAgrees(routes, f, address);
      GroupIsFlattened(routes, f, n - 1, item);
    }
  }

  lemma FlattenGrows(routes: Routes, f: Frame, n: nat, item: (string, Chain))
    requires 0 < n <= |routes| && item in Flatten(routes, f, n - 1)
    ensures item in Flatten(routes, f, n)
  {
  }

  lemma RouteIsFlattened(routes: Routes, f: Frame, i: nat)
    requires i < |routes| && IsRoute(routes[i].entry)
    ensures var route := Executable(f.pointer + [routes[i].key], routes[i].entry, f.level);
            (RoutePath(route.id, f.opts),
             ChainOf(f, Middles(routes, f.pointer, f.level, 0, i), route,
                     Middles(routes, f.pointer, f.level, i + 1, |routes|))) in Flatten(routes, f, i + 1)
  {
    hide ChainOf, Middles, Executable, RoutePath;
  }

  lemma GroupIsFlattened(routes: Routes, f: Frame, i: nat, item: (string, Chain))
    requires i < |routes| && routes[i].entry.Group?
    requires item in Flatten(routes[i].entry.routes, Nested(routes, f, i), |routes[i].entry.routes|)
    ensures item in Flatten(routes, f, i + 1)
  {
    hide Nested;
  }

  lemma OwnChain(routes: Routes, f: Frame, address: seq<nat>)
    requires IsLeaf(routes, address) && |address| == 1
    ensures var i := address[0];
            var route := Executable(f.pointer + [routes[i].key], routes[i].entry, f.level);
            && PathAt(routes, f, address) == RoutePath(route.id, f.opts)
            && ChainAt(routes, f, address) == ChainOf(f, Middles(routes, f.pointer, f.level, 0, i), route,
                                                      Middles(routes, f.pointer, f.level, i + 1, |routes|))
  {
    var i := address[0];
    assert PointerOf(routes, address) == [routes[i].key];
    assert Before(routes, f.pointer, f.level, address) == Middles(routes, f.pointer, f.level, 0, i) + [];
    assert After(routes, f.pointer, f.level, address) == [] + Middles(routes, f.pointer, f.level, i + 1, |routes|);
  }

  /** Nothing but leaf chains is flattened. */
  lemma {:induction false} FlattenHoldsOnlyLeaves(routes: Routes, f: Frame, n: nat, item: (string, Chain))
    returns (address: seq<nat>)
    requires n <= |routes| && item in Flatten(routes, f, n)
    ensures IsLeaf(routes, address) && address[0] < n
    ensures item == (PathAt(routes, f, address), ChainAt(routes, f, address))
    decreases routes, n
  {
    hide ChainAt, PathAt, ChainOf, Nested, Executable, Middles;
    if item in Flatten(routes, f, n - 1) {
      address := FlattenHoldsOnlyLeaves(routes, f, n - 1, item);
    } else if routes[n - 1].entry.Item? {
      address := [n - 1];
      OwnChain(routes, f, address);
    } else {
      var sub := routes[n - 1].entry.routes;
      var inner := FlattenHoldsOnlyLeaves(sub, Nested(routes, f, n - 1), |sub|, item);
      address := [n - 1] + inner;
      assert address[1..] == inner;
      NestedChainAgrees(routes, f, address);
    }
  }

  /** The route sits where the chain says it does. */
  lemma RouteIndexNamesTheRoute(routes: Routes, f: Frame, address: seq<nat>)
    requires IsLeaf(routes, address)
    ensures var c := ChainAt(routes, f, address);
            c.routeIndex < |c.methods| && c.methods[c.routeIndex] == RouteOf(routes, f.pointer, f.level, address)
  {
    hide Before, After, RouteOf;
  }

  // ---------- Which trees register ----------

  datatype RouteError =
    | TooDeep
    | EmptyRoutes(pointer: seq<string>)
    | BadName(pointer: seq<string>)
    | Duplicate(id: string)
    | InvalidEntry(pointer: seq<string>)

  /** Numeric names, names with a comma and the routes-flow key are refused. */
  predicate NameOk(key: string, isNumeric: string -> bool) {
    !isNumeric(key) && ',' !in key && key != WORKFLOW_KEY
  }

  predicate ShapeOk(routes: Routes, level: nat, isNumeric: string -> bool) {
    && level <= MAX_ROUTE_NESTING && routes != []
    && forall i :: 0 <= i < |routes| ==> EntryOk(routes[i], level, isNumeric)
  }

  predicate EntryOk(k: Keyed, level: nat, isNumeric: string -> bool) {
    && NameOk(k.key, isNumeric)
    && match k.entry
       case Item(_, _) => true
       case Group(sub) => ShapeOk(sub, level + 1, isNumeric)
       case NotARoute => false
  }

  /** Ids of the routes, or of the middleFns, among the first `n` entries and everything below them. */
  function Ids(routes: Routes, pointer: seq<string>, ofRoutes: bool, n: nat): seq<string>
    requires n <= |routes|
    decreases routes, n
  {
    if n == 0 then []
    else
      var here := routes[n - 1];
      Ids(routes, pointer, ofRoutes, n - 1) +
      match here.entry
      case Item(kind, _) => if kind.Route? == ofRoutes then [JoinPointer(pointer + [here.key])] else []
      case Group(sub) => Ids(sub, pointer + [here.key], ofRoutes, |sub|)
      case NotARoute => []
  }

  /** The ids repeat neither each other nor a name already taken. */
  ghost predicate Unused(ids: seq<string>, names: set<string>) {
    NoDup(ids) && forall x :: x in ids ==> x !in names
  }

  lemma UnusedConcat(a: seq<string>, b: seq<string>, names: set<string>)
    ensures Unused(a + b, names) <==> Unused(a, names) && Unused(b, names + Elements(a))
    ensures Elements(a + b) == Elements(a) + Elements(b)
  {
    if Unused(a + b, names) {
      forall i, j | 0 <= i < j < |a| ensures a[i] != a[j] {
        assert (a + b)[i] != (a + b)[j];
      }
      forall i, j | 0 <= i < j < |b| ensures b[i] != b[j] {
        assert (a + b)[|a| + i] != (a + b)[|a| + j];
      }
      forall x | x in b ensures x !in names + Elements(a) {
        var j :| 0 <= j < |b| && b[j] == x;
        assert (a + b)[|a| + j] == x && x in a + b;
        forall i | 0 <= i < |a| ensures a[i] != x {
          assert (a + b)[i] != (a + b)[|a| + j];
        }
      }
      assert forall x :: x in a ==> x in a + b;
    }
    if Unused(a, names) && Unused(b, names + Elements(a)) {
      forall i, j | 0 <= i < j < |a + b| ensures (a + b)[i] != (a + b)[j] {
        if i < |a| <= j { assert b[j - |a|] in b; assert a[i] in Elements(a); }
      }
    }
  }

  lemma {:induction false} IdsArePrefix(
    routes: Routes, pointer: seq<string>, ofRoutes: bool, i: nat, n: nat, names: set<string>)
    requires i <= n <= |routes|
    ensures Unused(Ids(routes, pointer, ofRoutes, n), names) ==> Unused(Ids(routes, pointer, ofRoutes, i), names)
    decreases n - i
  {
    if i < n {
      hide Unused;
      IdsArePrefix(routes, pointer, ofRoutes, i, n - 1, names);
      var own := Ids(routes, pointer, ofRoutes, n)[|Ids(routes, pointer, ofRoutes, n - 1)|..];
      assert Ids(routes, pointer, ofRoutes, n) == Ids(routes, pointer, ofRoutes, n - 1) + own;
      UnusedConcat(Ids(routes, pointer, ofRoutes, n - 1), own, names);
    }
  }

  /** The tree registers on top of the names already taken. */
  ghost predicate Registers(
    routes: Routes, pointer: seq<string>, level: nat, isNumeric: string -> bool, middleNames: set<string>,
    routeNames: set<string>)
  {
    && ShapeOk(routes, level, isNumeric)
    && Unused(Ids(routes, pointer, false, |routes|), middleNames)
    && Unused(Ids(routes, pointer, true, |routes|), routeNames)
  }

  // ---------- The executable cache ----------

  datatype Slot = RouteSlot | MiddleSlot | RawSlot

  function SlotOf(kind: Kind): Slot {
    match kind
    case Route => RouteSlot
    case RawMiddleFn => RawSlot
    case _ => MiddleSlot
  }

  type Cache = map<(Slot, string), RemoteMethod>

  /** `canon` maps each item of the tree, by slot and id, to the method built from it. */
  ghost predicate Agrees(canon: Cache, routes: Routes, pointer: seq<string>, level: nat) {
    forall i :: 0 <= i < |routes| ==> EntryAgrees(canon, routes[i], pointer, level)
  }

  ghost predicate EntryAgrees(canon: Cache, k: Keyed, pointer: seq<string>, level: nat) {
    match k.entry
    case Item(kind, _) =>
      var m := Executable(pointer + [k.key], k.entry, level);
      (SlotOf(kind), m.id) in canon && canon[(SlotOf(kind), m.id)] == m
    case Group(sub) => Agrees(canon, sub, pointer + [k.key], level + 1)
    case NotARoute => true
  }

  function KeyOf(m: RemoteMethod): (Slot, string) {
    (SlotOf(m.kind), m.id)
  }

  /** Every method is cached under its own slot and id. */
  ghost predicate WellKeyed(cache: Cache) {
    forall k :: k in cache ==> KeyOf(cache[k]) == k
  }

  /** The method that is used for one just made: the one already cached under its slot and id, if any. */
  function Reused(cache: Cache, made: RemoteMethod): RemoteMethod {
    if KeyOf(made) in cache then cache[KeyOf(made)] else made
  }

  function ReusedAll(cache: Cache, ms: seq<RemoteMethod>): (r: seq<RemoteMethod>)
    ensures |r| == |ms| && forall i :: 0 <= i < |ms| ==> r[i] == Reused(cache, ms[i])
  {
    seq(|ms|, i requires 0 <= i < |ms| => Reused(cache, ms[i]))
  }

  /** A chain over the methods that are really used; its serializer is that of the route used. */
  function ReusedChain(cache: Cache, c: Chain): Chain {
    var ms := ReusedAll(cache, c.methods);
    Chain(c.routeIndex, ms, if c.routeIndex < |ms| then SerializerCodeOf(ms[c.routeIndex].def.serializer)
      else c.serializer)
  }

  function ReusedItems(cache: Cache, items: seq<(string, Chain)>): (r: seq<(string, Chain)>)
    ensures |r| == |items|
    ensures forall i :: 0 <= i < |items| ==> r[i] == (items[i].0, ReusedChain(cache, items[i].1))
  {
    seq(|items|, i requires 0 <= i < |items| => (items[i].0, ReusedChain(cache, items[i].1)))
  }

  function ReusedFrame(cache: Cache, f: Frame): Frame {
    f.(pre := ReusedAll(cache, f.pre), post := ReusedAll(cache, f.post),
       start := ReusedAll(cache, f.start), end := ReusedAll(cache, f.end))
  }

  lemma ReusedAllConcat(cache: Cache, a: seq<RemoteMethod>, b: seq<RemoteMethod>)
    ensures ReusedAll(cache, a + b) == ReusedAll(cache, a) + ReusedAll(cache, b)
  {
  }

  lemma ReusedItemsConcat(cache: Cache, a: seq<(string, Chain)>, b: seq<(string, Chain)>)
    ensures ReusedItems(cache, a + b) == ReusedItems(cache, a) + ReusedItems(cache, b)
  {
  }

  /** Building a chain from what is really used gives the reused chain. */
  lemma ReusedChainOf(cache: Cache, f: Frame, before: seq<RemoteMethod>, route: RemoteMethod, after: seq<RemoteMethod>)
    ensures ChainOf(ReusedFrame(cache, f), ReusedAll(cache, before), Reused(cache, route), ReusedAll(cache, after)) ==
            ReusedChain(cache, ChainOf(f, before, route, after))
  {
    var c := ChainOf(f, before, route, after);
    var g := ReusedFrame(cache, f);
    var built :=
      g.start + g.pre + ReusedAll(cache, before) + [Reused(cache, route)] + ReusedAll(cache, after) + g.post + g.end;
    assert c.methods[c.routeIndex] == route;
    assert ReusedAll(cache, c.methods) == built;
  }

  lemma ReusedNested(cache: Cache, routes: Routes, f: Frame, index: nat)
    requires index < |routes|
    ensures var props := ReusedProps(cache, PropsAt(routes, f, index));
            ReusedFrame(cache, Nested(routes, f, index)) ==
            ReusedFrame(cache, f).(
              pointer := f.pointer + [routes[index].key], level := f.level + 1,
              pre := ReusedFrame(cache, f).pre + props.pre, post := props.post + ReusedFrame(cache, f).post)
  {
    hide Middles;
    ReusedAllConcat(cache, f.pre, Middles(routes, f.pointer, f.level, 0, index));
    ReusedAllConcat(cache, Middles(routes, f.pointer, f.level, index + 1, |routes|), f.post);
  }

  /** What the cache may hold while a level is flattened: what it held at first, and methods of `canon`. */
  ghost predicate CacheOk(cache: Cache, reused: Cache, canon: Cache) {
    Extends(cache, reused) && forall k :: k in cache ==> k in reused || (k in canon && cache[k] == canon[k])
  }

  /** What flattening goes by: the methods cached at first, those the tree gives, the level's place in the tree. */
  datatype Plan = Plan(reused: Cache, canon: Cache, frame: Frame)

  ghost predicate Follows(plan: Plan, routes: Routes, g: Frame) {
    Agrees(plan.canon, routes, g.pointer, g.level) && g == ReusedFrame(plan.reused, plan.frame)
  }

  /** Writing chains into the flat router in order. */
  function Filed(router: map<string, Chain>, items: seq<(string, Chain)>): map<string, Chain> {
    if items == [] then router
    else
      var last := items[|items| - 1];
      Filed(router, items[..|items| - 1])[last.0 := last.1]
  }

  lemma {:induction false} FiledConcat(router: map<string, Chain>, a: seq<(string, Chain)>, b: seq<(string, Chain)>)
    ensures Filed(router, a + b) == Filed(Filed(router, a), b)
  {
    if b == [] {
      assert a + b == a;
    } else {
      assert (a + b)[..|a + b| - 1] == a + b[..|b| - 1];
      FiledConcat(router, a, b[..|b| - 1]);
    }
  }

  // ---------- Distinct ids leave no doubt about any executable ----------

  function Canon(routes: Routes, pointer: seq<string>, level: nat, n: nat): Cache
    requires n <= |routes|
    decreases routes, n, 1
  {
    if n == 0 then map[] else Canon(routes, pointer, level, n - 1) + OwnCanon(routes, pointer, level, n)
  }

  function OwnCanon(routes: Routes, pointer: seq<string>, level: nat, n: nat): Cache
    requires 0 < n <= |routes|
    decreases routes, n, 0
  {
    var here := routes[n - 1];
    match here.entry
    case Item(kind, _) =>
      var m := Executable(pointer + [here.key], here.entry, level);
      map[(SlotOf(kind), m.id) := m]
    case Group(sub) => Canon(sub, pointer + [here.key], level + 1, |sub|)
    case NotARoute => map[]
  }

  ghost predicate Extends(big: Cache, small: Cache) {
    forall k :: k in small ==> k in big && big[k] == small[k]
  }

  lemma {:induction false} AgreesExtends(small: Cache, big: Cache, k: Keyed, pointer: seq<string>, level: nat)
    requires Extends(big, small) && EntryAgrees(small, k, pointer, level)
    ensures EntryAgrees(big, k, pointer, level)
    decreases k
  {
    if k.entry.Group? {
      var sub := k.entry.routes;
      forall i | 0 <= i < |sub| ensures EntryAgrees(big, sub[i], pointer + [k.key], level + 1) {
        AgreesExtends(small, big, sub[i], pointer + [k.key], level + 1);
      }
    }
  }

  /** Every key of the canonical cache comes from an id of the tree. */
  lemma {:induction false} CanonKeys(routes: Routes, pointer: seq<string>, level: nat, n: nat)
    requires n <= |routes|
    ensures forall k :: k in Canon(routes, pointer, level, n) ==> k.1 in Ids(routes, pointer, k.0.RouteSlot?, n)
    decreases routes, n, 1
  {
    hide Ids, OwnIds, OwnCanon;
    if n > 0 {
      CanonKeys(routes, pointer, level, n - 1);
      OwnCanonKeys(routes, pointer, level, n);
      forall k | k in Canon(routes, pointer, level, n) ensures k.1 in Ids(routes, pointer, k.0.RouteSlot?, n) {
        var before, own := Ids(routes, pointer, k.0.RouteSlot?, n - 1), OwnIds(routes, pointer, k.0.RouteSlot?, n);
        assert k.1 in before || k.1 in own;
        assert Ids(routes, pointer, k.0.RouteSlot?, n) == before + own;
      }
    }
  }

  lemma {:induction false} OwnCanonKeys(routes: Routes, pointer: seq<string>, level: nat, n: nat)
    requires 0 < n <= |routes|
    ensures forall k :: k in OwnCanon(routes, pointer, level, n) ==> k.1 in OwnIds(routes, pointer, k.0.RouteSlot?, n)
    decreases routes, n, 0
  {
    if routes[n - 1].entry.Group? {
      var sub := routes[n - 1].entry.routes;
      CanonKeys(sub, pointer + [routes[n - 1].key], level + 1, |sub|);
    }
  }

  /** When no id is used twice, one cache agrees with the whole tree. */
  lemma {:induction false} DistinctIdsAgree(routes: Routes, pointer: seq<string>, level: nat, n: nat)
    requires n <= |routes|
    requires NoDup(Ids(routes, pointer, false, n)) && NoDup(Ids(routes, pointer, true, n))
    ensures forall i :: 0 <= i < n ==> EntryAgrees(Canon(routes, pointer, level, n), routes[i], pointer, level)
    decreases routes, n, 1
  {
    if n > 0 {
      hide EntryAgrees, OwnIds, OwnCanon, Ids;
      OwnIdsAreNew(routes, pointer, false, n);
      OwnIdsAreNew(routes, pointer, true, n);
      DistinctIdsAgree(routes, pointer, level, n - 1);
      OwnEntryAgrees(routes, pointer, level, n);
      CanonGrows(routes, pointer, level, n);
      var before, own, all :=
        Canon(routes, pointer, level, n - 1), OwnCanon(routes, pointer, level, n), Canon(routes, pointer, level, n);
      forall i | 0 <= i < n - 1 ensures EntryAgrees(all, routes[i], pointer, level) {
        AgreesExtends(before, all, routes[i], pointer, level);
      }
      AgreesExtends(own, all, routes[n - 1], pointer, level);
    }
  }

  lemma CanonGrows(routes: Routes, pointer: seq<string>, level: nat, n: nat)
    requires 0 < n <= |routes|
    requires forall x :: x in OwnIds(routes, pointer, false, n) ==> x !in Ids(routes, pointer, false, n - 1)
    requires forall x :: x in OwnIds(routes, pointer, true, n) ==> x !in Ids(routes, pointer, true, n - 1)
    ensures Extends(Canon(routes, pointer, level, n), Canon(routes, pointer, level, n - 1))
    ensures Extends(Canon(routes, pointer, level, n), OwnCanon(routes, pointer, level, n))
  {
    CanonKeys(routes, pointer, level, n - 1);
    OwnCanonKeys(routes, pointer, level, n);
    hide OwnIds, OwnCanon, Ids;
    forall k | k in Canon(routes, pointer, level, n - 1) ensures k !in OwnCanon(routes, pointer, level, n) {
      assert k.1 in Ids(routes, pointer, k.0.RouteSlot?, n - 1);
      assert k.1 !in OwnIds(routes, pointer, k.0.RouteSlot?, n);
    }
  }

  lemma OwnIdsAreNew(routes: Routes, pointer: seq<string>, ofRoutes: bool, n: nat)
    requires 0 < n <= |routes| && NoDup(Ids(routes, pointer, ofRoutes, n))
    ensures NoDup(Ids(routes, pointer, ofRoutes, n - 1)) && NoDup(OwnIds(routes, pointer, ofRoutes, n))
    ensures forall x :: x in OwnIds(routes, pointer, ofRoutes, n) ==> x !in Ids(routes, pointer, ofRoutes, n - 1)
  {
    UnusedConcat(Ids(routes, pointer, ofRoutes, n - 1), OwnIds(routes, pointer, ofRoutes, n), {});
  }

  /** The ids the `n`-th entry alone contributes. */
  function OwnIds(routes: Routes, pointer: seq<string>, ofRoutes: bool, n: nat): (own: seq<string>)
    requires 0 < n <= |routes|
    ensures Ids(routes, pointer, ofRoutes, n) == Ids(routes, pointer, ofRoutes, n - 1) + own
  {
    var here := routes[n - 1];
    match here.entry
    case Item(kind, _) => if kind.Route? == ofRoutes then [JoinPointer(pointer + [here.key])] else []
    case Group(sub) => Ids(sub, pointer + [here.key], ofRoutes, |sub|)
    case NotARoute => []
  }

  lemma OwnEntryAgrees(routes: Routes, pointer: seq<string>, level: nat, n: nat)
    requires 0 < n <= |routes|
    requires NoDup(OwnIds(routes, pointer, false, n)) && NoDup(OwnIds(routes, pointer, true, n))
    ensures EntryAgrees(OwnCanon(routes, pointer, level, n), routes[n - 1], pointer, level)
    decreases routes, n, 0
  {
    if routes[n - 1].entry.Group? {
      var sub := routes[n - 1].entry.routes;
      DistinctIdsAgree(sub, pointer + [routes[n - 1].key], level + 1, |sub|);
    }
  }

  // ---------- The router ----------

  /** The middleFns of an entry's own level, before and after it. */
  datatype Props = Props(pre: seq<RemoteMethod>, post: seq<RemoteMethod>)

  /** Property lists of entry `index` of a level, as they should be. */
  function PropsAt(routes: Routes, f: Frame, index: nat): Props
    requires index < |routes|
  {
    Props(Middles(routes, f.pointer, f.level, 0, index), Middles(routes, f.pointer, f.level, index + 1, |routes|))
  }

  function ReusedProps(cache: Cache, p: Props): Props {
    Props(ReusedAll(cache, p.pre), ReusedAll(cache, p.post))
  }

  /** The property lists an entry is given, going by the plan. */
  function PlannedProps(plan: Plan, routes: Routes, index: nat): Props
    requires index < |routes|
  {
    ReusedProps(plan.reused, PropsAt(routes, plan.frame, index))
  }

  /** The flat router after filing one entry, going by the plan. */
  function PlannedEntry(plan: Plan, routes: Routes, index: nat, router: map<string, Chain>): map<string, Chain>
    requires index < |routes|
  {
    Filed(router, ReusedItems(plan.reused, OwnChains(routes, plan.frame, index)))
  }

  class Router {
    /** the start and end middleFns every chain is wrapped in, as they were defined */
    const startDefs: seq<Keyed>
    const endDefs: seq<Keyed>
    var startMiddleFns: seq<RemoteMethod>
    var endMiddleFns: seq<RemoteMethod>
    var flatRouter: map<string, Chain>
    /** middleFnsById, rawMiddleFnsById and routesById, told apart by slot */
    var byId: Cache
    var middleFnNames: set<string>
    var routeNames: set<string>

    constructor (startDefs: seq<Keyed>, endDefs: seq<Keyed>)
      ensures Valid() && this.startDefs == startDefs && this.endDefs == endDefs
      ensures flatRouter == map[] && byId == map[] && middleFnNames == {} && routeNames == {}
    {
      this.startDefs, this.endDefs, startMiddleFns, endMiddleFns := startDefs, endDefs, [], [];
      flatRouter, byId, middleFnNames, routeNames := map[], map[], {}, {};
    }

    /** Every cached method stands under its own slot and id, and is a start or end middleFn or registered. */
    ghost predicate Valid()
      reads this
    {
      WellKeyed(byId) && Known(byId, startDefs + endDefs, middleFnNames, routeNames)
    }

    /** The method cached under the item's id, made on first use. */
    method GetExecutable(k: Keyed, pointer: seq<string>, level: nat, ghost reused: Cache, ghost canon: Cache)
      returns (m: RemoteMethod)
      requires k.entry.Item?
      modifies this`byId
      ensures var made := Executable(pointer + [k.key], k.entry, level);
              m == Reused(old(byId), made) && byId == old(byId)[KeyOf(made) := m]
      ensures EntryAgrees(canon, k, pointer, level) && CacheOk(old(byId), reused, canon) ==>
                m == Reused(reused, Executable(pointer + [k.key], k.entry, level)) && CacheOk(byId, reused, canon)
    {
      var made := Executable(pointer + [k.key], k.entry, level);
      var slot := (SlotOf(k.entry.kind), made.id);
      m := if slot in byId then byId[slot] else made;
      byId := byId[slot := m];
    }

    /** Walks one level and collects the middleFns before and after `index`. */
    method LevelMiddles(routes: Routes, g: Frame, index: nat, ghost plan: Plan) returns (props: Props)
      requires index < |routes|
      modifies this`byId
      ensures Follows(plan, routes, g) && CacheOk(old(byId), plan.reused, plan.canon) ==>
                props == PlannedProps(plan, routes, index) && CacheOk(byId, plan.reused, plan.canon)
    {
      hide EntryAgrees, Executable, CacheOk, Reused;
      ghost var agreed := Follows(plan, routes, g) && CacheOk(byId, plan.reused, plan.canon);
      var pre, post := [], [];
      for i := 0 to |routes|
        invariant agreed ==> CacheOk(byId, plan.reused, plan.canon)
        invariant agreed ==>
            pre == ReusedAll(plan.reused, Middles(routes, g.pointer, g.level, 0, if i < index then i else index))
        invariant agreed ==>
                    post == if i <= index then []
                            else ReusedAll(plan.reused, Middles(routes, g.pointer, g.level, index + 1, i))
      {
        if IsMiddle(routes[i].entry) {
          var executable := GetExecutable(routes[i], g.pointer, g.level, plan.reused, plan.canon);
          if i < index { pre := pre + [executable]; }
          if i > index { post := post + [executable]; }
        }
      }
      props := Props(pre, post);
    }

    /** Files one route's chain, or goes one level down. */
    method RecursiveCreateExecutionChain(
      routes: Routes, g: Frame, index: nat, route: RemoteMethod, minus1Props: Option<Props>,
      isNumeric: string -> bool, ghost plan: Plan)
      returns (props: Props, err: Option<RouteError>)
      requires index < |routes| && !routes[index].entry.NotARoute?
      requires minus1Props.Some? == (0 < index)
      modifies this`flatRouter, this`byId, this`middleFnNames, this`routeNames
      ensures routes[index].entry.Item? ==>
                err.None? && middleFnNames == old(middleFnNames) && routeNames == old(routeNames)
      ensures routes[index].entry.Group? ==>
                var sub, below := routes[index].entry.routes, Nested(routes, g, index);
                && (err.None? <==>
                     Registers(sub, below.pointer, below.level, isNumeric, old(middleFnNames), old(routeNames)))
                && (err.None? ==> middleFnNames == old(middleFnNames) + Elements(Ids(sub, below.pointer, false, |sub|))
                                  && routeNames == old(routeNames) + Elements(Ids(sub, below.pointer, true, |sub|)))
      ensures Follows(plan, routes, g) && CacheOk(old(byId), plan.reused, plan.canon)
                && (IsRoute(routes[index].entry) ==> route == PlannedRoute(plan, routes, index))
                && (0 < index ==> minus1Props.value == PlannedProps(plan, routes, index - 1)) && err.None? ==>
                CacheOk(byId, plan.reused, plan.canon) && props == PlannedProps(plan, routes, index)
                && flatRouter == PlannedEntry(plan, routes, index, old(flatRouter))
      decreases routes, 0
    {
      hide CacheOk, EntryAgrees, Middles, OwnChains, Filed, Flatten, Registers, Ids, Reused, Executable, ReusedItems;
      PlannedEntryIs(plan, routes, index, flatRouter);
      var isBetweenRoutes := 0 < index && IsRoute(routes[index - 1].entry) && IsRoute(routes[index].entry)
                             && index + 1 < |routes| && IsRoute(routes[index + 1].entry);
      if isBetweenRoutes {
        BetweenRoutesAgree(routes, plan.frame.pointer, plan.frame.level, index);
        props := minus1Props.value;
      } else {
        props := LevelMiddles(routes, g, index, plan);
      }
      err := None;
      if IsRoute(routes[index].entry) {
        var chain := ChainOf(g, props.pre, route, props.post);
        flatRouter := flatRouter[RoutePath(JoinPointer(g.pointer + [routes[index].key]), g.opts) := chain];
      } else if routes[index].entry.Group? {
        var sub := routes[index].entry.routes;
        GroupAgrees(plan.canon, routes, g, index);
        ReusedNested(plan.reused, routes, plan.frame, index);
        var below := g.(pointer := g.pointer + [routes[index].key], level := g.level + 1,
                        pre := g.pre + props.pre, post := props.post + g.post);
        err := RecursiveFlatRoutes(sub, below, isNumeric, plan.(frame := Nested(routes, plan.frame, index)));
      }
    }

    /** Checks one entry's name and id, then files or flattens it. */
    method FlattenEntry(
      routes: Routes, g: Frame, index: nat, minus1Props: Option<Props>, isNumeric: string -> bool, ghost plan: Plan)
      returns (props: Props, err: Option<RouteError>)
      requires index < |routes|
      requires minus1Props.Some? == (0 < index)
      modifies this`flatRouter, this`byId, this`middleFnNames, this`routeNames
      ensures err.None? <==> EntryRegisters(routes, g, index, isNumeric, old(middleFnNames), old(routeNames))
      ensures err.None? ==> middleFnNames == old(middleFnNames) + Elements(OwnIds(routes, g.pointer, false, index + 1))
      ensures err.None? ==> routeNames == old(routeNames) + Elements(OwnIds(routes, g.pointer, true, index + 1))
      ensures Follows(plan, routes, g) && CacheOk(old(byId), plan.reused, plan.canon)
                && (0 < index ==> minus1Props.value == PlannedProps(plan, routes, index - 1)) && err.None? ==>
                CacheOk(byId, plan.reused, plan.canon) && props == PlannedProps(plan, routes, index)
                && flatRouter == PlannedEntry(plan, routes, index, old(flatRouter))
      decreases routes, 1
    {
      hide CacheOk, EntryAgrees, PlannedProps, PlannedEntry, Reused, Executable, EntryRegisters, OwnIds, Elements,
        NoDup;
      if routes[index].entry.Item? { ItemRegisters(routes, g, index, isNumeric, middleFnNames, routeNames); }
      if routes[index].entry.Group? { GroupRegisters(routes, g, index, isNumeric, middleFnNames, routeNames); }
      UnfitEntry(routes, g, index, isNumeric, middleFnNames, routeNames);
      ItemAgrees(plan.canon, routes, g, index);
      var here := routes[index];
      var pointer := g.pointer + [here.key];
      var id := JoinPointer(pointer);
      var route := RemoteMethod(id, Kind.Route, pointer, g.level, Def(0, false, false, 0, JsonMode));
      props := Props([], []);
      if !NameOk(here.key, isNumeric) { return props, Some(BadName(pointer)); }
      if here.entry.NotARoute? { return props, Some(InvalidEntry(pointer)); }
      if here.entry.Item? {
        route := GetExecutable(here, g.pointer, g.level, plan.reused, plan.canon);
        var taken := if here.entry.kind.Route? then routeNames else middleFnNames;
        if id in taken { return props, Some(Duplicate(id)); }
        if here.entry.kind.Route? { routeNames := routeNames + {id}; } else { middleFnNames := middleFnNames + {id}; }
      }
      props, err := RecursiveCreateExecutionChain(routes, g, index, route, minus1Props, isNumeric, plan);
    }

    /** Flattens one level, entry by entry. */
    method RecursiveFlatRoutes(routes: Routes, g: Frame, isNumeric: string -> bool, ghost plan: Plan)
      returns (err: Option<RouteError>)
      modifies this`flatRouter, this`byId, this`middleFnNames, this`routeNames
      ensures err.None? <==> Registers(routes, g.pointer, g.level, isNumeric, old(middleFnNames), old(routeNames))
      ensures err.None? ==> middleFnNames == old(middleFnNames) + Elements(Ids(routes, g.pointer, false, |routes|))
      ensures err.None? ==> routeNames == old(routeNames) + Elements(Ids(routes, g.pointer, true, |routes|))
      ensures Follows(plan, routes, g) && CacheOk(old(byId), plan.reused, plan.canon) && err.None? ==>
                CacheOk(byId, plan.reused, plan.canon)
                && flatRouter == Filed(old(flatRouter), ReusedItems(plan.reused, Flatten(routes, plan.frame, |routes|)))
      decreases routes, 2
    {
      hide CacheOk, EntryAgrees, PlannedProps, OwnChains, OwnIds, EntryOk, Unused, Elements, Ids, Flatten, ReusedItems;
      if g.level > MAX_ROUTE_NESTING { return Some(TooDeep); }
      if routes == [] { return Some(EmptyRoutes(g.pointer)); }
      ghost var agreed := Follows(plan, routes, g) && CacheOk(byId, plan.reused, plan.canon);
      NothingRegistered(routes, g, middleFnNames, routeNames);
      NothingFiled(routes, plan, flatRouter);
      err := None;
      var props: Option<Props> := None;
      var index := 0;
      while index < |routes|
        invariant index <= |routes| && err.None? && props.Some? == (0 < index)
        invariant PrefixRegisters(routes, g, index, isNumeric, old(middleFnNames), old(routeNames))
        invariant middleFnNames == old(middleFnNames) + Elements(Ids(routes, g.pointer, false, index))
        invariant routeNames == old(routeNames) + Elements(Ids(routes, g.pointer, true, index))
        invariant agreed ==> CacheOk(byId, plan.reused, plan.canon)
        invariant agreed ==>
                    flatRouter == Filed(old(flatRouter), ReusedItems(plan.reused, Flatten(routes, plan.frame, index)))
        invariant agreed && 0 < index ==> props.value == PlannedProps(plan, routes, index - 1)
      {
        EntryExtendsPrefix(routes, g, index, isNumeric, old(middleFnNames), old(routeNames));
        EntryIsFiledNext(routes, plan, index, old(flatRouter));
        var next;
        next, err := FlattenEntry(routes, g, index, props, isNumeric, plan);
        if err.Some? { return; }
        props := Some(next);
        index := index + 1;
      }
    }

    /** The methods of a collection of middleFns, each cached or made; an entry of any other kind throws. */
    method GetExecutablesFromMiddleFnsCollection(defs: seq<Keyed>) returns (r: Result<seq<RemoteMethod>, RouteError>)
      modifies this`byId
      ensures r.Ok? <==> AllMiddles(defs)
      ensures r.Ok? ==> r.value == Collection(old(byId), defs) && byId == Cached(old(byId), defs)
    {
      var results: seq<RemoteMethod> := [];
      for i := 0 to |defs|
        invariant AllMiddles(defs[..i])
        invariant results == Collection(old(byId), defs[..i]) && byId == Cached(old(byId), defs[..i])
      {
        assert defs[..i + 1] == defs[..i] + [defs[i]];
        assert defs[..i + 1][..i] == defs[..i];
        if !IsMiddle(defs[i].entry) { return Err(InvalidEntry([defs[i].key])); }
        var m := GetExecutable(defs[i], [], 0, map[], map[]);
        assert [] + [defs[i].key] == [defs[i].key];
        results := results + [m];
      }
      assert defs[..|defs|] == defs;
      r := Ok(results);
    }

    /** Registers a whole tree, or reports why it cannot. The start and end middleFns are cached first, and an
        item of the tree uses whatever is cached under its id. */
    method RegisterRoutes(
      routes: Routes, opts: PathOptions, isNumeric: string -> bool) returns (err: Option<RouteError>)
      requires Valid()
      modifies this
      ensures err.None? ==> Valid()
      ensures err.None? <==>
                AllMiddles(startDefs) && AllMiddles(endDefs)
                && Registers(routes, [], 0, isNumeric, old(middleFnNames), old(routeNames))
      ensures err.None? ==>
                && middleFnNames == old(middleFnNames) + Elements(Ids(routes, [], false, |routes|))
                && routeNames == old(routeNames) + Elements(Ids(routes, [], true, |routes|))
                && startMiddleFns == Collection(old(byId), startDefs)
                && endMiddleFns == Collection(Cached(old(byId), startDefs), endDefs)
                && flatRouter == Filed(old(flatRouter), ReusedItems(
                     Cached(Cached(old(byId), startDefs), endDefs),
                     Flatten(routes, RootFrame(startMiddleFns, endMiddleFns, opts), |routes|)))
    {
      hide EntryAgrees, Flatten, Ids, Registers, ReusedItems, Filed, Cached, Collection, Canon, WellKeyed, Known;
      var collected := GetExecutablesFromMiddleFnsCollection(startDefs);
      if collected.Err? { return Some(collected.error); }
      startMiddleFns := collected.value;
      collected := GetExecutablesFromMiddleFnsCollection(endDefs);
      if collected.Err? { return Some(collected.error); }
      endMiddleFns := collected.value;
      ghost var reused := byId;
      BothCollected(old(byId), startDefs, endDefs, old(middleFnNames), old(routeNames));
      var root := RootFrame(startMiddleFns, endMiddleFns, opts);
      ghost var plan := Plan(reused, Canon(routes, [], 0, |routes|), root);
      RootFollows(plan, routes, root, isNumeric, middleFnNames, routeNames);
      NothingNew(byId, plan.canon);
      err := RecursiveFlatRoutes(routes, root, isNumeric, plan);
      if err.None? {
        StillKnown(byId, plan, routes, startDefs + endDefs, old(middleFnNames), old(routeNames));
      }
    }
  }

  // ---------- What is cached before a tree ----------

  predicate AllMiddles(defs: seq<Keyed>) {
    forall k :: k in defs ==> IsMiddle(k.entry)
  }

  function Made(k: Keyed): RemoteMethod
    requires k.entry.Item?
  {
    Executable([k.key], k.entry, 0)
  }

  /** The cache after fetching a collection. */
  function Cached(cache: Cache, defs: seq<Keyed>): Cache
    requires AllMiddles(defs)
  {
    if defs == [] then cache
    else
      var before, made := Cached(cache, defs[..|defs| - 1]), Made(defs[|defs| - 1]);
      before[KeyOf(made) := Reused(before, made)]
  }

  function Collection(cache: Cache, defs: seq<Keyed>): seq<RemoteMethod>
    requires AllMiddles(defs)
  {
    if defs == [] then []
    else
      var front := defs[..|defs| - 1];
      Collection(cache, front) + [Reused(Cached(cache, front), Made(defs[|defs| - 1]))]
  }

  function DefKeys(defs: seq<Keyed>): set<(Slot, string)> {
    set k | k in defs && k.entry.Item? :: KeyOf(Made(k))
  }

  /** Every cached key is one of the definitions', or a registered name. */
  ghost predicate Known(cache: Cache, defs: seq<Keyed>, middleNames: set<string>, routeNames: set<string>) {
    forall k :: k in cache ==> k in DefKeys(defs) || k.1 in (if k.0.RouteSlot? then routeNames else middleNames)
  }

  /** A collection is cached as it was fetched: fetching again gives the same methods. */
  ghost predicate CachesAll(cache: Cache, ms: seq<RemoteMethod>) {
    forall m :: m in ms ==> KeyOf(m) in cache && cache[KeyOf(m)] == m
  }

  lemma Fetched(cache: Cache, made: RemoteMethod)
    requires WellKeyed(cache)
    ensures var m := Reused(cache, made);
            var after := cache[KeyOf(made) := m];
            && WellKeyed(after) && Extends(after, cache) && CachesAll(after, [m])
            && after.Keys == cache.Keys + {KeyOf(made)}
  {
  }

  lemma CachesAllConcat(cache: Cache, a: seq<RemoteMethod>, b: seq<RemoteMethod>)
    requires CachesAll(cache, a) && CachesAll(cache, b)
    ensures CachesAll(cache, a + b)
  {
    hide KeyOf;
  }

  lemma ExtendsMore(big: Cache, mid: Cache, small: Cache)
    requires Extends(big, mid) && Extends(mid, small)
    ensures Extends(big, small)
  {
  }

  lemma DefKeysAppend(front: seq<Keyed>, last: Keyed)
    requires last.entry.Item?
    ensures DefKeys(front + [last]) == DefKeys(front) + {KeyOf(Made(last))}
  {
    hide Made, KeyOf;
    assert last in front + [last];
    assert forall k :: k in front + [last] <==> k in front || k == last;
  }

  lemma CollectionStep(cache: Cache, front: seq<Keyed>, last: Keyed)
    requires AllMiddles(front) && AllMiddles(front + [last]) && last.entry.Item?
    ensures var before, made := Cached(cache, front), Made(last);
            && Cached(cache, front + [last]) == before[KeyOf(made) := Reused(before, made)]
            && Collection(cache, front + [last]) == Collection(cache, front) + [Reused(before, made)]
  {
    assert (front + [last])[..|front|] == front;
  }

  lemma {:induction false} CollectionSettles(cache: Cache, defs: seq<Keyed>)
    requires AllMiddles(defs) && WellKeyed(cache)
    ensures WellKeyed(Cached(cache, defs)) && Extends(Cached(cache, defs), cache)
    ensures CachesAll(Cached(cache, defs), Collection(cache, defs))
    ensures Cached(cache, defs).Keys == cache.Keys + DefKeys(defs)
  {
    if defs != [] {
      hide Made, WellKeyed, Extends, CachesAll, Reused, KeyOf, DefKeys, Cached, Collection;
      var front, last := defs[..|defs| - 1], defs[|defs| - 1];
      assert defs == front + [last];
      assert IsMiddle(last.entry);
      CollectionSettles(cache, front);
      CollectionStep(cache, front, last);
      var before, made := Cached(cache, front), Made(last);
      Fetched(before, made);
      ExtendsMore(Cached(cache, defs), before, cache);
      CachesAllStays(before, Cached(cache, defs), Collection(cache, front));
      CachesAllConcat(Cached(cache, defs), Collection(cache, front), [Reused(before, made)]);
      DefKeysAppend(front, last);
    } else {
      assert DefKeys(defs) == {};
    }
  }

  lemma CachesAllStays(small: Cache, big: Cache, ms: seq<RemoteMethod>)
    requires CachesAll(small, ms) && Extends(big, small)
    ensures CachesAll(big, ms)
  {
  }

  lemma BothCollected(
    cache: Cache, startDefs: seq<Keyed>, endDefs: seq<Keyed>, middleNames: set<string>, routeNames: set<string>)
    requires AllMiddles(startDefs) && AllMiddles(endDefs)
    requires WellKeyed(cache) && Known(cache, startDefs + endDefs, middleNames, routeNames)
    ensures var first := Cached(cache, startDefs);
            var both := Cached(first, endDefs);
            && WellKeyed(both) && Known(both, startDefs + endDefs, middleNames, routeNames)
            && CachesAll(both, Collection(cache, startDefs)) && CachesAll(both, Collection(first, endDefs))
  {
    hide Made, Cached, Collection, WellKeyed, Extends, CachesAll;
    var first := Cached(cache, startDefs);
    CollectionSettles(cache, startDefs);
    CollectionSettles(first, endDefs);
    CachesAllStays(first, Cached(first, endDefs), Collection(cache, startDefs));
    assert DefKeys(startDefs + endDefs) == DefKeys(startDefs) + DefKeys(endDefs);
  }

  lemma CachedIsReused(cache: Cache, ms: seq<RemoteMethod>)
    requires CachesAll(cache, ms)
    ensures ReusedAll(cache, ms) == ms
  {
    forall i | 0 <= i < |ms| ensures ReusedAll(cache, ms)[i] == ms[i] {
      assert ms[i] in ms;
    }
  }

  /** At the root the plan is followed, when the tree's ids are distinct. */
  lemma RootFollows(
    plan: Plan, routes: Routes, root: Frame, isNumeric: string -> bool, middleNames: set<string>,
    routeNames: set<string>)
    requires plan.canon == Canon(routes, [], 0, |routes|) && plan.frame == root
    requires root.pointer == [] && root.level == 0 && root.pre == [] && root.post == []
    requires CachesAll(plan.reused, root.start) && CachesAll(plan.reused, root.end)
    ensures Registers(routes, [], 0, isNumeric, middleNames, routeNames) ==> Follows(plan, routes, root)
  {
    hide Canon, EntryAgrees, Ids, ShapeOk, CachesAll;
    CachedIsReused(plan.reused, root.start);
    CachedIsReused(plan.reused, root.end);
    if Registers(routes, [], 0, isNumeric, middleNames, routeNames) { DistinctIdsAgree(routes, [], 0, |routes|); }
  }

  lemma NothingNew(cache: Cache, canon: Cache)
    ensures CacheOk(cache, cache, canon)
  {
  }

  /** Flattening leaves only well-keyed methods whose names are registered. */
  lemma StillKnown(
    cache: Cache, plan: Plan, routes: Routes, defs: seq<Keyed>, middleNames: set<string>, routeNames: set<string>)
    requires plan.canon == Canon(routes, [], 0, |routes|) && CacheOk(cache, plan.reused, plan.canon)
    requires WellKeyed(plan.reused) && Known(plan.reused, defs, middleNames, routeNames)
    ensures WellKeyed(cache)
    ensures Known(cache, defs, middleNames + Elements(Ids(routes, [], false, |routes|)),
                  routeNames + Elements(Ids(routes, [], true, |routes|)))
  {
    hide Canon, Ids, DefKeys;
    CanonKeys(routes, [], 0, |routes|);
    CanonIsWellKeyed(routes, [], 0, |routes|);
  }

  lemma {:induction false} CanonIsWellKeyed(routes: Routes, pointer: seq<string>, level: nat, n: nat)
    requires n <= |routes|
    ensures WellKeyed(Canon(routes, pointer, level, n))
    decreases routes, n, 1
  {
    if n > 0 {
      CanonIsWellKeyed(routes, pointer, level, n - 1);
      if routes[n - 1].entry.Group? {
        var sub := routes[n - 1].entry.routes;
        CanonIsWellKeyed(sub, pointer + [routes[n - 1].key], level + 1, |sub|);
      }
    }
  }

  // ---------- What registration achieves ----------

  function RootFrame(start: seq<RemoteMethod>, end: seq<RemoteMethod>, opts: PathOptions): Frame {
    Frame([], 0, [], [], start, end, opts)
  }

  lemma GroupAgrees(canon: Cache, routes: Routes, f: Frame, index: nat)
    requires index < |routes| && routes[index].entry.Group?
    ensures Agrees(canon, routes, f.pointer, f.level) ==>
              Agrees(canon, routes[index].entry.routes, f.pointer + [routes[index].key], f.level + 1)
  {
    assert Agrees(canon, routes, f.pointer, f.level) ==> EntryAgrees(canon, routes[index], f.pointer, f.level);
  }

  lemma ItemAgrees(canon: Cache, routes: Routes, f: Frame, index: nat)
    requires index < |routes|
    ensures Agrees(canon, routes, f.pointer, f.level) ==> EntryAgrees(canon, routes[index], f.pointer, f.level)
  {
  }

  lemma UnfitEntry(
    routes: Routes, f: Frame, index: nat, isNumeric: string -> bool, middleNames: set<string>, routeNames: set<string>)
    requires index < |routes|
    ensures !NameOk(routes[index].key, isNumeric) || routes[index].entry.NotARoute? ==>
              !EntryRegisters(routes, f, index, isNumeric, middleNames, routeNames)
  {
  }

  lemma ItemRegisters(
    routes: Routes, f: Frame, index: nat, isNumeric: string -> bool, middleNames: set<string>, routeNames: set<string>)
    requires index < |routes| && routes[index].entry.Item?
    ensures var here := routes[index];
            var id, ofRoutes := JoinPointer(f.pointer + [here.key]), here.entry.kind.Route?;
            && (EntryRegisters(routes, f, index, isNumeric, middleNames, routeNames) <==>
                NameOk(here.key, isNumeric) && id !in (if ofRoutes then routeNames else middleNames))
            && Elements(OwnIds(routes, f.pointer, ofRoutes, index + 1)) == {id}
            && Elements(OwnIds(routes, f.pointer, !ofRoutes, index + 1)) == {}
  {
  }

  lemma GroupRegisters(
    routes: Routes, f: Frame, index: nat, isNumeric: string -> bool, middleNames: set<string>, routeNames: set<string>)
    requires index < |routes| && routes[index].entry.Group?
    ensures var sub, g := routes[index].entry.routes, Nested(routes, f, index);
            && (EntryRegisters(routes, f, index, isNumeric, middleNames, routeNames) <==>
                NameOk(routes[index].key, isNumeric)
                  && Registers(sub, g.pointer, g.level, isNumeric, middleNames, routeNames))
            && (forall r: bool :: OwnIds(routes, f.pointer, r, index + 1) == Ids(sub, g.pointer, r, |sub|))
  {
  }

  /** The first `n` entries register. */
  ghost predicate PrefixRegisters(
    routes: Routes, f: Frame, n: nat, isNumeric: string -> bool, middleNames: set<string>, routeNames: set<string>)
    requires n <= |routes|
  {
    && (forall i :: 0 <= i < n ==> EntryOk(routes[i], f.level, isNumeric))
    && Unused(Ids(routes, f.pointer, false, n), middleNames)
    && Unused(Ids(routes, f.pointer, true, n), routeNames)
  }

  /** Entry `index` registers on top of the names taken so far. */
  ghost predicate EntryRegisters(
    routes: Routes, f: Frame, index: nat, isNumeric: string -> bool, middleNames: set<string>, routeNames: set<string>)
    requires index < |routes|
  {
    && EntryOk(routes[index], f.level, isNumeric)
    && Unused(OwnIds(routes, f.pointer, false, index + 1), middleNames)
    && Unused(OwnIds(routes, f.pointer, true, index + 1), routeNames)
  }

  lemma NothingRegistered(routes: Routes, f: Frame, middleNames: set<string>, routeNames: set<string>)
    ensures forall r: bool, names: set<string> :: Unused(Ids(routes, f.pointer, r, 0), names)
    ensures forall r: bool, names: set<string> :: names + Elements(Ids(routes, f.pointer, r, 0)) == names
  {
  }

  lemma NothingFiled(routes: Routes, plan: Plan, router: map<string, Chain>)
    ensures Filed(router, ReusedItems(plan.reused, Flatten(routes, plan.frame, 0))) == router
  {
  }

  lemma EntryIsFiledNext(routes: Routes, plan: Plan, index: nat, router: map<string, Chain>)
    requires index < |routes|
    ensures Filed(router, ReusedItems(plan.reused, Flatten(routes, plan.frame, index + 1))) ==
            PlannedEntry(plan, routes, index,
              Filed(router, ReusedItems(plan.reused, Flatten(routes, plan.frame, index))))
  {
    hide Flatten, Filed, ReusedItems;
    var before, own := Flatten(routes, plan.frame, index), OwnChains(routes, plan.frame, index);
    ReusedItemsConcat(plan.reused, before, own);
    FiledConcat(router, ReusedItems(plan.reused, before), ReusedItems(plan.reused, own));
  }

  /** A prefix grows by an entry exactly when that entry registers; a prefix that fails dooms the level. */
  lemma EntryExtendsPrefix(
    routes: Routes, f: Frame, index: nat, isNumeric: string -> bool, middleNames: set<string>, routeNames: set<string>)
    requires index < |routes| && PrefixRegisters(routes, f, index, isNumeric, middleNames, routeNames)
    ensures var m, r := middleNames + Elements(Ids(routes, f.pointer, false, index)), routeNames +
        Elements(Ids(routes, f.pointer, true, index));
            && (EntryRegisters(routes, f, index, isNumeric, m, r) <==>
                PrefixRegisters(routes, f, index + 1, isNumeric, middleNames, routeNames))
            && (f.level <= MAX_ROUTE_NESTING
                 && Registers(routes, f.pointer, f.level, isNumeric, middleNames, routeNames) ==>
                PrefixRegisters(routes, f, index + 1, isNumeric, middleNames, routeNames))
            && m + Elements(OwnIds(routes, f.pointer, false, index + 1)) ==
               middleNames + Elements(Ids(routes, f.pointer, false, index + 1))
            && r + Elements(OwnIds(routes, f.pointer, true, index + 1)) ==
               routeNames + Elements(Ids(routes, f.pointer, true, index + 1))
  {
    hide EntryOk, Unused, OwnIds, Ids;
    UnusedConcat(Ids(routes, f.pointer, false, index), OwnIds(routes, f.pointer, false, index + 1), middleNames);
    UnusedConcat(Ids(routes, f.pointer, true, index), OwnIds(routes, f.pointer, true, index + 1), routeNames);
    IdsArePrefix(routes, f.pointer, false, index + 1, |routes|, middleNames);
    IdsArePrefix(routes, f.pointer, true, index + 1, |routes|, routeNames);
  }

  /** The chains entry `index` contributes. */
  function OwnChains(routes: Routes, f: Frame, index: nat): (own: seq<(string, Chain)>)
    requires index < |routes|
    ensures Flatten(routes, f, index + 1) == Flatten(routes, f, index) + own
  {
    var here := routes[index];
    match here.entry
    case Item(kind, _) =>
      if kind.Route? then
        var route := Executable(f.pointer + [here.key], here.entry, f.level);
        [(RoutePath(route.id, f.opts),
          ChainOf(f, PropsAt(routes, f, index).pre, route, PropsAt(routes, f, index).post))]
      else []
    case Group(sub) => Flatten(sub, Nested(routes, f, index), |sub|)
    case NotARoute => []
  }

  /** The route of an entry, going by the plan. */
  function PlannedRoute(plan: Plan, routes: Routes, index: nat): RemoteMethod
    requires index < |routes| && routes[index].entry.Item?
  {
    Reused(plan.reused, Executable(plan.frame.pointer + [routes[index].key], routes[index].entry, plan.frame.level))
  }

  /** Filing what one entry contributes: one chain for a route, the nested level's for a group, else nothing. */
  lemma PlannedEntryIs(plan: Plan, routes: Routes, index: nat, router: map<string, Chain>)
    requires index < |routes| && !routes[index].entry.NotARoute?
    ensures var here, f, props := routes[index], plan.frame, PlannedProps(plan, routes, index);
            if IsRoute(here.entry) then
              PlannedEntry(plan, routes, index, router) ==
              router[RoutePath(JoinPointer(f.pointer + [here.key]), f.opts) :=
                ChainOf(ReusedFrame(plan.reused, f), props.pre, PlannedRoute(plan, routes, index), props.post)]
            else if here.entry.Group? then
              OwnChains(routes, f, index) == Flatten(here.entry.routes, Nested(routes, f, index), |here.entry.routes|)
            else PlannedEntry(plan, routes, index, router) == router
  {
    hide Flatten, Reused, ReusedAll, Middles;
    var here, f, props := routes[index], plan.frame, PropsAt(routes, plan.frame, index);
    if IsRoute(here.entry) {
      var route := Executable(f.pointer + [here.key], here.entry, f.level);
      ReusedChainOf(plan.reused, f, props.pre, route, props.post);
      var own := ReusedItems(plan.reused, OwnChains(routes, f, index));
      assert own[..0] == [] && Filed(router, []) == router;
      assert Filed(router, own) == Filed(router, own[..0])[own[0].0 := own[0].1];
    }
  }

  /** The flattened paths are those of the route ids, in the same order. */
  lemma {:induction false} FlattenedPaths(routes: Routes, f: Frame, n: nat)
    requires n <= |routes|
    ensures |Flatten(routes, f, n)| == |Ids(routes, f.pointer, true, n)|
    ensures forall i :: 0 <= i < |Flatten(routes, f, n)| ==>
              Flatten(routes, f, n)[i].0 == RoutePath(Ids(routes, f.pointer, true, n)[i], f.opts)
    decreases routes, n
  {
    if n > 0 {
      FlattenedPaths(routes, f, n - 1);
      if routes[n - 1].entry.Group? {
        var sub := routes[n - 1].entry.routes;
        FlattenedPaths(sub, Nested(routes, f, n - 1), |sub|);
      }
    }
  }

  lemma {:induction false} FiledLookup(router: map<string, Chain>, items: seq<(string, Chain)>, i: nat)
    requires i < |items|
    requires forall j, k :: 0 <= j < k < |items| ==> items[j].0 != items[k].0
    ensures items[i].0 in Filed(router, items) && Filed(router, items)[items[i].0] == items[i].1
  {
    if i < |items| - 1 {
      FiledLookup(router, items[..|items| - 1], i);
    }
  }

  lemma {:induction false} FiledKeys(router: map<string, Chain>, items: seq<(string, Chain)>, path: string)
    requires path in Filed(router, items)
    ensures || (path in router && Filed(router, items)[path] == router[path])
            || (exists i :: 0 <= i < |items| && items[i].0 == path)
  {
    if items != [] {
      if items[|items| - 1].0 != path {
        var front := items[..|items| - 1];
        FiledKeys(router, front, path);
        if i :| 0 <= i < |front| && front[i].0 == path {
          assert items[i].0 == path;
        }
      }
    }
  }

  lemma DistinctPaths(routes: Routes, f: Frame)
    requires NoDup(Ids(routes, f.pointer, true, |routes|))
    ensures var items := Flatten(routes, f, |routes|);
            forall j, k :: 0 <= j < k < |items| ==> items[j].0 != items[k].0
  {
    FlattenedPaths(routes, f, |routes|);
    var ids, items := Ids(routes, f.pointer, true, |routes|), Flatten(routes, f, |routes|);
    forall j, k | 0 <= j < k < |items| ensures items[j].0 != items[k].0 {
      if items[j].0 == items[k].0 {
        RoutePathIsInjective(ids[j], ids[k], f.opts);
      }
    }
  }

  lemma ReusedPathsAreDistinct(routes: Routes, f: Frame, reused: Cache)
    requires NoDup(Ids(routes, f.pointer, true, |routes|))
    ensures var items := ReusedItems(reused, Flatten(routes, f, |routes|));
            forall j, k :: 0 <= j < k < |items| ==> items[j].0 != items[k].0
  {
    hide Flatten, ReusedChain;
    DistinctPaths(routes, f);
  }

  /** After registering, the path of each leaf holds that leaf's chain over the methods used, and its route is
      where the chain says. */
  lemma EveryLeafIsServed(routes: Routes, f: Frame, reused: Cache, router: map<string, Chain>, address: seq<nat>)
    requires NoDup(Ids(routes, f.pointer, true, |routes|)) && IsLeaf(routes, address)
    ensures var after := Filed(router, ReusedItems(reused, Flatten(routes, f, |routes|)));
            var path := PathAt(routes, f, address);
            && path in after && after[path] == ReusedChain(reused, ChainAt(routes, f, address))
            && after[path].routeIndex < |after[path].methods|
            && after[path].methods[after[path].routeIndex] ==
                 Reused(reused, RouteOf(routes, f.pointer, f.level, address))
  {
    hide PathAt, ChainAt, RouteOf, IsLeaf, Filed, Reused;
    var items := Flatten(routes, f, |routes|);
    FlattenCoversLeavesOf(routes, f, address);
    ReusedPathsAreDistinct(routes, f, reused);
    var i :| 0 <= i < |items| && items[i] == (PathAt(routes, f, address), ChainAt(routes, f, address));
    FiledLookup(router, ReusedItems(reused, items), i);
    RouteIndexNamesTheRoute(routes, f, address);
  }

  lemma FlattenCoversLeavesOf(routes: Routes, f: Frame, address: seq<nat>)
    requires IsLeaf(routes, address)
    ensures (PathAt(routes, f, address), ChainAt(routes, f, address)) in Flatten(routes, f, |routes|)
  {
    FlattenCoversLeaves(routes, f, |routes|, address);
  }

  /** Whatever the router holds afterwards was there before or belongs to a leaf of the tree. */
  lemma NothingElseIsServed(routes: Routes, f: Frame, reused: Cache, router: map<string, Chain>, path: string)
    requires path in Filed(router, ReusedItems(reused, Flatten(routes, f, |routes|)))
    ensures (path in router && Filed(router, ReusedItems(reused, Flatten(routes, f, |routes|)))[path] == router[path])
            || exists address :: IsLeaf(routes, address) && path == PathAt(routes, f, address)
  {
    hide PathAt, ChainAt, Flatten, ReusedChain;
    var items := Flatten(routes, f, |routes|);
    FiledKeys(router, ReusedItems(reused, items), path);
    if i :| 0 <= i < |items| && items[i].0 == path {
      var address := FlattenHoldsOnlyLeaves(routes, f, |routes|, items[i]);
    }
  }

  // ---------- When a chain uses the tree's own methods ----------

  ghost predicate UsesItsOwn(reused: Cache, c: Chain) {
    forall m :: m in c.methods ==> Reused(reused, m) == m
  }

  lemma {:induction false} SerializerIsTheRoutes(routes: Routes, f: Frame, n: nat, item: (string, Chain))
    requires n <= |routes| && item in Flatten(routes, f, n)
    ensures item.1.routeIndex < |item.1.methods|
    ensures item.1.serializer == SerializerCodeOf(item.1.methods[item.1.routeIndex].def.serializer)
  {
    hide Flatten, PathAt, Before, After, RouteOf;
    var address := FlattenHoldsOnlyLeaves(routes, f, n, item);
    RouteIndexNamesTheRoute(routes, f, address);
  }

  lemma ReusedChainIsOwnIff(reused: Cache, c: Chain)
    requires c.routeIndex < |c.methods| && c.serializer == SerializerCodeOf(c.methods[c.routeIndex].def.serializer)
    ensures ReusedChain(reused, c) == c <==> UsesItsOwn(reused, c)
  {
    hide Reused;
    var ms := ReusedAll(reused, c.methods);
    if UsesItsOwn(reused, c) {
      forall i | 0 <= i < |ms| ensures ms[i] == c.methods[i] {
        assert c.methods[i] in c.methods;
      }
      assert ms == c.methods;
    }
    if ReusedChain(reused, c) == c {
      assert ms == c.methods;
      forall m | m in c.methods ensures Reused(reused, m) == m {
        var i :| 0 <= i < |c.methods| && c.methods[i] == m;
        assert ms[i] == Reused(reused, m);
      }
    }
  }

  ghost predicate AllUseTheirOwn(routes: Routes, f: Frame, reused: Cache) {
    forall item :: item in Flatten(routes, f, |routes|) ==> UsesItsOwn(reused, item.1)
  }

  /** The router comes to hold the flattened tree itself exactly when no method cached beforehand differs from one
      that a leaf's chain asks for under the same slot and id. */
  lemma TreeIsServedAsWrittenIff(routes: Routes, f: Frame, reused: Cache, router: map<string, Chain>)
    requires NoDup(Ids(routes, f.pointer, true, |routes|))
    ensures var items := Flatten(routes, f, |routes|);
            Filed(router, ReusedItems(reused, items)) == Filed(router, items) <==> AllUseTheirOwn(routes, f, reused)
  {
    hide Flatten, Filed, UsesItsOwn, ReusedChain;
    var items := Flatten(routes, f, |routes|);
    var used := ReusedItems(reused, items);
    DistinctPaths(routes, f);
    ReusedPathsAreDistinct(routes, f, reused);
    forall i | 0 <= i < |items|
      ensures ReusedChain(reused, items[i].1) == items[i].1 <==> UsesItsOwn(reused, items[i].1) {
      SerializerIsTheRoutes(routes, f, |routes|, items[i]);
      ReusedChainIsOwnIff(reused, items[i].1);
    }
    if AllUseTheirOwn(routes, f, reused) {
      forall i | 0 <= i < |items| ensures used[i] == items[i] {
        assert items[i] in items;
      }
      assert used == items;
    }
    if Filed(router, used) == Filed(router, items) {
      forall item | item in items ensures UsesItsOwn(reused, item.1) {
        var i :| 0 <= i < |items| && items[i] == item;
        FiledLookup(router, items, i);
        FiledLookup(router, used, i);
      }
    }
  }

  lemma {:induction false} MiddlesAreListed(routes: Routes, pointer: seq<string>, level: nat, lo: nat, hi: nat)
    requires lo <= hi <= |routes|
    ensures forall m :: m in Middles(routes, pointer, level, lo, hi) ==>
              !m.kind.Route? && m.id in Ids(routes, pointer, false, hi)
  {
    if lo < hi { MiddlesAreListed(routes, pointer, level, lo, hi - 1); }
  }

  lemma {:induction false} LeafMethodsAreListed(routes: Routes, pointer: seq<string>, level: nat, address: seq<nat>)
    requires IsLeaf(routes, address)
    ensures forall m :: m in Before(routes, pointer, level, address) + After(routes, pointer, level, address) ==>
              !m.kind.Route? && m.id in Ids(routes, pointer, false, |routes|)
    ensures RouteOf(routes, pointer, level, address).kind.Route?
    ensures RouteOf(routes, pointer, level, address).id in Ids(routes, pointer, true, |routes|)
    decreases |address|
  {
    hide Ids, Middles, JoinPointer;
    var i, n := address[0], |routes|;
    MiddlesAreListed(routes, pointer, level, 0, i);
    MiddlesAreListed(routes, pointer, level, i + 1, n);
    EarlierIdsAreListed(routes, pointer, false, i, n);
    EntryIdsAreListed(routes, pointer, i);
    if |address| == 1 {
      assert pointer + PointerOf(routes, address) == pointer + [routes[i].key];
    } else {
      var sub, inner := routes[i].entry.routes, pointer + [routes[i].key];
      LeafMethodsAreListed(sub, inner, level + 1, address[1..]);
      assert pointer + PointerOf(routes, address) == inner + PointerOf(sub, address[1..]);
    }
  }

  lemma {:induction false} EarlierIdsAreListed(routes: Routes, pointer: seq<string>, ofRoutes: bool, i: nat, n: nat)
    requires i <= n <= |routes|
    ensures forall id :: id in Ids(routes, pointer, ofRoutes, i) ==> id in Ids(routes, pointer, ofRoutes, n)
    decreases n - i
  {
    if i < n { EarlierIdsAreListed(routes, pointer, ofRoutes, i, n - 1); }
  }

  /** The ids of one entry are among those of its level. */
  lemma EntryIdsAreListed(routes: Routes, pointer: seq<string>, i: nat)
    requires i < |routes|
    ensures IsRoute(routes[i].entry) ==> JoinPointer(pointer + [routes[i].key]) in Ids(routes, pointer, true, |routes|)
    ensures routes[i].entry.Group? ==>
              var sub, inner := routes[i].entry.routes, pointer + [routes[i].key];
              forall ofRoutes, id :: id in Ids(sub, inner, ofRoutes, |sub|) ==>
                id in Ids(routes, pointer, ofRoutes, |routes|)
  {
    EarlierIdsAreListed(routes, pointer, true, i + 1, |routes|);
    EarlierIdsAreListed(routes, pointer, false, i + 1, |routes|);
  }

  /** The middleFn ids of the tree are none of the definitions'. */
  ghost predicate ClearOf(routes: Routes, defs: seq<Keyed>) {
    forall k :: k in DefKeys(defs) ==> k.1 !in Ids(routes, [], false, |routes|)
  }

  /** With the start and end middleFns cached and every other cached name taken, a tree that registers and whose
      middleFns are named like none of them is served as it is written. */
  lemma RegisteredTreeIsServedAsWritten(
    routes: Routes, cache: Cache, startDefs: seq<Keyed>, endDefs: seq<Keyed>, opts: PathOptions,
    isNumeric: string -> bool, middleNames: set<string>, routeNames: set<string>)
    requires AllMiddles(startDefs) && AllMiddles(endDefs)
    requires WellKeyed(cache) && Known(cache, startDefs + endDefs, middleNames, routeNames)
    requires Registers(routes, [], 0, isNumeric, middleNames, routeNames) && ClearOf(routes, startDefs + endDefs)
    ensures var first := Cached(cache, startDefs);
            AllUseTheirOwn(routes, RootFrame(Collection(cache, startDefs), Collection(first, endDefs), opts),
              Cached(first, endDefs))
  {
    hide Flatten, Cached, Collection, Ids, ShapeOk, PathAt, Made, WellKeyed, DefKeys;
    var first := Cached(cache, startDefs);
    var both, f := Cached(first, endDefs), RootFrame(Collection(cache, startDefs), Collection(first, endDefs), opts);
    BothCollected(cache, startDefs, endDefs, middleNames, routeNames);
    DefKeysAreMiddles(startDefs + endDefs);
    forall item | item in Flatten(routes, f, |routes|) ensures UsesItsOwn(both, item.1) {
      var address := FlattenHoldsOnlyLeaves(routes, f, |routes|, item);
      LeafIsOwn(routes, f, both, startDefs + endDefs, middleNames, routeNames, address);
    }
  }

  lemma DefKeysAreMiddles(defs: seq<Keyed>)
    requires AllMiddles(defs)
    ensures forall k :: k in DefKeys(defs) ==> !k.0.RouteSlot?
  {
  }

  lemma LeafIsOwn(
    routes: Routes, f: Frame, cache: Cache, defs: seq<Keyed>, middleNames: set<string>, routeNames: set<string>,
    address: seq<nat>)
    requires IsLeaf(routes, address) && f.pointer == [] && f.pre == [] && f.post == []
    requires Known(cache, defs, middleNames, routeNames) && CachesAll(cache, f.start) && CachesAll(cache, f.end)
    requires Unused(Ids(routes, [], false, |routes|), middleNames)
    requires Unused(Ids(routes, [], true, |routes|), routeNames)
    requires ClearOf(routes, defs) && forall k :: k in DefKeys(defs) ==> !k.0.RouteSlot?
    ensures UsesItsOwn(cache, ChainAt(routes, f, address))
  {
    hide Ids, Before, After, RouteOf, DefKeys;
    var before, after := Before(routes, f.pointer, f.level, address), After(routes, f.pointer, f.level, address);
    var route := RouteOf(routes, f.pointer, f.level, address);
    LeafMethodsAreListed(routes, f.pointer, f.level, address);
    forall m | m in ChainAt(routes, f, address).methods ensures Reused(cache, m) == m {
      assert m in f.start || m in f.end || m in before + after || m == route;
    }
  }

  /** A tree item named like a start middleFn registers, and its own handler never runs: every chain runs the
      start middleFn twice. */
  lemma StartMiddleFnShadowsTheTree(
    key: string, path: string, mine: Def, theirs: Def, route: Def, opts: PathOptions, isNumeric: string -> bool)
    requires key != path && mine != theirs && NameOk(key, isNumeric) && NameOk(path, isNumeric)
    ensures var starts, tree :=
        [Keyed(key, Item(MiddleFn, theirs))], [Keyed(key, Item(MiddleFn, mine)), Keyed(path, Item(Kind.Route, route))];
            var cache := Cached(map[], starts);
            var f := RootFrame(Collection(map[], starts), [], opts);
            && Registers(tree, [], 0, isNumeric, {}, {}) && !AllUseTheirOwn(tree, f, cache)
            && |ReusedItems(cache, Flatten(tree, f, 2))| == 1
            && ReusedItems(cache, Flatten(tree, f, 2))[0].1.methods ==
               [Made(starts[0]), Made(starts[0]), Executable([path], tree[1].entry, 0)]
  {
    var starts, tree :=
      [Keyed(key, Item(MiddleFn, theirs))], [Keyed(key, Item(MiddleFn, mine)), Keyed(path, Item(Kind.Route, route))];
    hide Flatten, Ids, Middles, Cached, Collection, JoinPointer, ReusedChain, UsesItsOwn;
    var used, unused, leaf := Made(starts[0]), Made(tree[0]), Made(tree[1]);
    var cache, f := Cached(map[], starts), RootFrame(Collection(map[], starts), [], opts);
    OneCollected(starts[0]);
    assert starts == [starts[0]];
    assert forall i :: 0 <= i < 2 ==> EntryOk(tree[i], 0, isNumeric);
    assert ShapeOk(tree, 0, isNumeric);
    TwoEntries(tree, f, key, path);
    TwiceUsed(cache, f, used, unused, leaf);
    var items := Flatten(tree, f, 2);
    assert items[0] in items;
  }

  lemma TwiceUsed(cache: Cache, f: Frame, used: RemoteMethod, unused: RemoteMethod, leaf: RemoteMethod)
    requires cache == map[KeyOf(used) := used] && KeyOf(unused) == KeyOf(used) != KeyOf(leaf) && unused != used
    requires f.start == [used] && f.pre == f.post == f.end == []
    ensures var c := ChainOf(f, [unused], leaf, []);
            !UsesItsOwn(cache, c) && ReusedChain(cache, c).methods == [used, used, leaf]
  {
    var c := ChainOf(f, [unused], leaf, []);
    assert c.methods == [used, unused, leaf];
    assert c.methods[1] in c.methods && Reused(cache, unused) == used;
    assert ReusedAll(cache, [used, unused, leaf]) == [used, used, leaf];
  }

  lemma OneCollected(k: Keyed)
    requires IsMiddle(k.entry)
    ensures Cached(map[], [k]) == map[KeyOf(Made(k)) := Made(k)] && Collection(map[], [k]) == [Made(k)]
  {
    assert [k][..0] == [];
  }

  lemma TwoEntries(tree: Routes, f: Frame, key: string, path: string)
    requires |tree| == 2 && tree[0].key == key && tree[1].key == path && key != path
    requires tree[0].entry.Item? && tree[0].entry.kind.MiddleFn? && IsRoute(tree[1].entry)
    requires f.pointer == [] && f.level == 0
    ensures Ids(tree, [], false, 2) == [key] && Ids(tree, [], true, 2) == [path]
    ensures Flatten(tree, f, 2) == [(RoutePath(path, f.opts), ChainOf(f, [Made(tree[0])], Made(tree[1]), []))]
  {
    assert [] + [key] == [key] && [] + [path] == [path];
    assert Ids(tree, [], false, 0) == [] && Ids(tree, [], true, 0) == [];
    assert Ids(tree, [], false, 1) == [key] && Ids(tree, [], true, 1) == [];
    assert Middles(tree, [], 0, 0, 0) == [] && Middles(tree, [], 0, 0, 1) == [Made(tree[0])];
    assert Middles(tree, [], 0, 2, 2) == [];
    assert Flatten(tree, f, 0) == [] && Flatten(tree, f, 1) == [];
  }
}
