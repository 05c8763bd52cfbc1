/** What a registered route runs, said of the places of the tree alone. */
module ChainOrder {
  import opened Basics
  import opened RouteTree

  // ---------- Places ----------

  /** An item of the tree is named by the entry index taken at each level. */
  predicate IsPlace(routes: Routes, place: seq<nat>) {
    && place != [] && place[0] < |routes|
    && (if |place| == 1 then routes[place[0]].entry.Item?
        else routes[place[0]].entry.Group? && IsPlace(routes[place[0]].entry.routes, place[1..]))
  }

  function EntryAt(routes: Routes, place: seq<nat>): Entry
    requires IsPlace(routes, place)
    ensures EntryAt(routes, place).Item?
  {
    var here := routes[place[0]].entry;
    if |place| == 1 then here else EntryAt(here.routes, place[1..])
  }

  /** The keys from the root to the item. */
  function KeysTo(routes: Routes, place: seq<nat>): (keys: seq<string>)
    requires IsPlace(routes, place)
    ensures keys != []
  {
    var here := routes[place[0]];
    if |place| == 1 then [here.key] else [here.key] + KeysTo(here.entry.routes, place[1..])
  }

  /** Keys with a slash between any two. */
  function Slashed(keys: seq<string>): string {
    if keys == [] then "" else if |keys| == 1 then keys[0] else keys[0] + "/" + Slashed(keys[1..])
  }

  /** The method made of an item: its keys, its kind and definition, and how deep it stands. */
  ghost predicate IsMadeOf(m: RemoteMethod, above: seq<string>, level: nat, routes: Routes, place: seq<nat>) {
    && IsPlace(routes, place)
    && m.pointer == above + KeysTo(routes, place) && m.id == Slashed(m.pointer)
    && m.kind == EntryAt(routes, place).kind && m.def == EntryAt(routes, place).def
    && m.nestLevel == level + |place| - 1
  }

  lemma {:induction false} SlashedAppend(keys: seq<string>, key: string)
    requires keys != []
    ensures Slashed(keys + [key]) == Slashed(keys) + "/" + key
  {
    assert (keys + [key])[1..] == keys[1..] + [key];
    if |keys| > 1 {
      SlashedAppend(keys[1..], key);
      assert Slashed(keys + [key]) == keys[0] + "/" + (Slashed(keys[1..]) + "/" + key);
    }
  }

  /** An id is its keys with slashes in between. */
  lemma {:induction false} IdIsSlashed(pointer: seq<string>)
    ensures JoinPointer(pointer) == Slashed(pointer)
  {
    if 1 < |pointer| {
      var n := |pointer| - 1;
      IdIsSlashed(pointer[..n]);
      SlashedAppend(pointer[..n], pointer[n]);
      assert pointer == pointer[..n] + [pointer[n]];
    }
  }

  // ---------- Which items run around a leaf, and in which order ----------

  /** The leaf itself, or a middleFn on its level or on a level further out. */
  ghost predicate IsAround(routes: Routes, leaf: seq<nat>, place: seq<nat>) {
    && IsPlace(routes, place) && |place| <= |leaf| && place[..|place| - 1] == leaf[..|place| - 1]
    && (place == leaf || !EntryAt(routes, place).kind.Route?)
  }

  /** Listed ahead of the leaf, or of the group that holds it. */
  ghost predicate IsAhead(leaf: seq<nat>, place: seq<nat>) {
    0 < |place| <= |leaf| && place[|place| - 1] < leaf[|place| - 1]
  }

  ghost predicate IsBehind(leaf: seq<nat>, place: seq<nat>) {
    0 < |place| <= |leaf| && leaf[|place| - 1] < place[|place| - 1]
  }

  /** The order of execution: what is ahead, from the outermost level in; the leaf; what is behind, from its own level
      out; on one level as listed. */
  ghost predicate RunsBefore(leaf: seq<nat>, a: seq<nat>, b: seq<nat>) {
    || (IsAhead(leaf, a) && (b == leaf || IsBehind(leaf, b)))
    || (a == leaf && IsBehind(leaf, b))
    || (IsAhead(leaf, a) && IsAhead(leaf, b) && |a| < |b|)
    || (IsBehind(leaf, a) && IsBehind(leaf, b) && |b| < |a|)
    || (((IsAhead(leaf, a) && IsAhead(leaf, b)) || (IsBehind(leaf, a) && IsBehind(leaf, b)))
        && |a| == |b| && a[|a| - 1] < b[|b| - 1])
  }

  /** These are the items around a leaf, in the order of execution. */
  ghost predicate IsOrder(routes: Routes, leaf: seq<nat>, order: seq<seq<nat>>) {
    && (forall place :: place in order <==> IsAround(routes, leaf, place))
    && forall i, j :: 0 <= i < j < |order| ==> RunsBefore(leaf, order[i], order[j])
  }

  ghost predicate AreMadeOf(
    ms: seq<RemoteMethod>, above: seq<string>, level: nat, routes: Routes, order: seq<seq<nat>>)
  {
    |ms| == |order| && forall i :: 0 <= i < |ms| ==> IsMadeOf(ms[i], above, level, routes, order[i])
  }

  // ---------- The places of a level ----------

  function Places(routes: Routes, lo: nat, hi: nat): seq<seq<nat>>
    requires lo <= hi <= |routes|
  {
    if lo == hi then []
    else Places(routes, lo, hi - 1) + if IsMiddle(routes[hi - 1].entry) then [[hi - 1]] else []
  }

  lemma {:induction false} PlacesAre(routes: Routes, lo: nat, hi: nat)
    requires lo <= hi <= |routes|
    ensures forall place :: place in Places(routes, lo, hi) <==>
              |place| == 1 && lo <= place[0] < hi && IsMiddle(routes[place[0]].entry)
  {
    hide IsMiddle;
    if lo < hi {
      PlacesAre(routes, lo, hi - 1);
      forall place: seq<nat> | |place| == 1 && place[0] == hi - 1 ensures place == [hi - 1] { }
    }
  }

  /** Places of one level, one after the other. */
  ghost predicate Ascend(ps: seq<seq<nat>>) {
    && (forall i :: 0 <= i < |ps| ==> |ps[i]| == 1)
    && forall i, j :: 0 <= i < j < |ps| ==> ps[i] != [] && ps[j] != [] && ps[i][0] < ps[j][0]
  }

  lemma {:induction false} PlacesAscend(routes: Routes, lo: nat, hi: nat)
    requires lo <= hi <= |routes|
    ensures Ascend(Places(routes, lo, hi))
  {
    if lo < hi {
      PlacesAscend(routes, lo, hi - 1);
      PlacesAre(routes, lo, hi - 1);
      var front := Places(routes, lo, hi - 1);
      forall i | 0 <= i < |front| ensures |front[i]| == 1 && front[i][0] < hi - 1 {
        assert front[i] in front;
      }
    }
  }

  lemma {:induction false} MiddlesAreMadeOf(routes: Routes, above: seq<string>, level: nat, lo: nat, hi: nat)
    requires lo <= hi <= |routes|
    ensures AreMadeOf(Middles(routes, above, level, lo, hi), above, level, routes, Places(routes, lo, hi))
  {
    hide JoinPointer, Slashed;
    if lo < hi {
      MiddlesAreMadeOf(routes, above, level, lo, hi - 1);
      IdIsSlashed(above + [routes[hi - 1].key]);
    }
  }

  function Under(i: nat, order: seq<seq<nat>>): (r: seq<seq<nat>>)
    ensures |r| == |order|
  {
    seq(|order|, k requires 0 <= k < |order| => [i] + order[k])
  }

  /** The items around a leaf, listed level by level. */
  function Order(routes: Routes, leaf: seq<nat>): seq<seq<nat>>
    requires IsLeaf(routes, leaf)
  {
    var i := leaf[0];
    Places(routes, 0, i)
      + (if |leaf| == 1 then [leaf] else Under(i, Order(routes[i].entry.routes, leaf[1..])))
      + Places(routes, i + 1, |routes|)
  }

  lemma UnderIs(i: nat, order: seq<seq<nat>>, place: seq<nat>)
    ensures place in Under(i, order) <==> place != [] && place[0] == i && place[1..] in order
  {
    if place != [] && place[0] == i && place[1..] in order {
      var k :| 0 <= k < |order| && order[k] == place[1..];
      assert Under(i, order)[k] == place;
    }
    if place in Under(i, order) {
      var k :| 0 <= k < |order| && Under(i, order)[k] == place;
      assert place[1..] == order[k];
    }
  }

  lemma RunsBeforeUnder(leaf: seq<nat>, a: seq<nat>, b: seq<nat>)
    requires 1 < |leaf| && a != [] && b != []
    ensures RunsBefore(leaf[1..], a, b) ==> RunsBefore(leaf, [leaf[0]] + a, [leaf[0]] + b)
  {
    var up, inner := [leaf[0]], leaf[1..];
    assert leaf == up + inner;
    assert forall place: seq<nat> :: place == inner ==> up + place == leaf;
  }

  /** Around a leaf below a group: the middleFns of this level, and what is around it inside the group. */
  lemma IsAroundUnder(routes: Routes, leaf: seq<nat>, place: seq<nat>)
    requires IsLeaf(routes, leaf) && 1 < |leaf|
    ensures IsAround(routes, leaf, place) <==>
              || (|place| == 1 && place[0] < |routes| && IsMiddle(routes[place[0]].entry))
              || (1 < |place| && place[0] == leaf[0] && IsAround(routes[leaf[0]].entry.routes, leaf[1..], place[1..]))
  {
    if 1 < |place| <= |leaf| {
      assert place[..|place| - 1] == [place[0]] + place[1..][..|place| - 2];
      assert leaf[..|place| - 1] == [leaf[0]] + leaf[1..][..|place| - 2];
      assert place == [place[0]] + place[1..] && leaf == [leaf[0]] + leaf[1..];
      if place[..|place| - 1] == leaf[..|place| - 1] {
        assert place[..|place| - 1][0] == leaf[..|place| - 1][0];
        assert place[1..][..|place| - 2] == place[..|place| - 1][1..];
        assert leaf[1..][..|place| - 2] == leaf[..|place| - 1][1..];
      }
    }
  }

  lemma IsAroundAlone(routes: Routes, leaf: seq<nat>, place: seq<nat>)
    requires IsLeaf(routes, leaf) && |leaf| == 1
    ensures IsAround(routes, leaf, place) <==>
              place == leaf || (|place| == 1 && place[0] < |routes| && IsMiddle(routes[place[0]].entry))
  {
    if |place| == 1 { assert place[..0] == leaf[..0]; }
  }

  lemma {:induction false} LeafIsPlace(routes: Routes, leaf: seq<nat>)
    requires IsLeaf(routes, leaf)
    ensures IsPlace(routes, leaf) && EntryAt(routes, leaf).kind.Route?
    ensures EntryAt(routes, leaf) == LeafOf(routes, leaf) && KeysTo(routes, leaf) == PointerOf(routes, leaf)
    decreases |leaf|
  {
    if 1 < |leaf| { LeafIsPlace(routes[leaf[0]].entry.routes, leaf[1..]); }
  }

  lemma {:induction false} OrderHolds(routes: Routes, leaf: seq<nat>, place: seq<nat>)
    requires IsLeaf(routes, leaf)
    ensures place in Order(routes, leaf) <==> IsAround(routes, leaf, place)
    decreases |leaf|
  {
    hide IsAround, Places, Under;
    var i, n := leaf[0], |routes|;
    PlacesAre(routes, 0, i);
    PlacesAre(routes, i + 1, n);
    if |leaf| == 1 {
      IsAroundAlone(routes, leaf, place);
    } else {
      IsAroundUnder(routes, leaf, place);
      var inner := Order(routes[i].entry.routes, leaf[1..]);
      UnderIs(i, inner, place);
      if 1 < |place| {
        OrderHolds(routes[i].entry.routes, leaf[1..], place[1..]);
      } else if |place| == 1 {
        OrderHolds(routes[i].entry.routes, leaf[1..], []);
        NothingIsNoPlace(routes[i].entry.routes, leaf[1..]);
        assert place[1..] == [];
      }
    }
  }

  lemma NothingIsNoPlace(routes: Routes, leaf: seq<nat>)
    ensures !IsAround(routes, leaf, [])
  {
  }

  ghost predicate Sorted(leaf: seq<nat>, order: seq<seq<nat>>) {
    forall i, j :: 0 <= i < j < |order| ==> RunsBefore(leaf, order[i], order[j])
  }

  ghost predicate AllBefore(leaf: seq<nat>, a: seq<seq<nat>>, b: seq<seq<nat>>) {
    forall x, y :: x in a && y in b ==> RunsBefore(leaf, x, y)
  }

  lemma SortedConcat(leaf: seq<nat>, a: seq<seq<nat>>, b: seq<seq<nat>>)
    requires Sorted(leaf, a) && Sorted(leaf, b) && AllBefore(leaf, a, b)
    ensures Sorted(leaf, a + b)
  {
    hide RunsBefore;
    forall i, j | 0 <= i < j < |a + b| ensures RunsBefore(leaf, (a + b)[i], (a + b)[j]) {
      if i < |a| <= j { assert a[i] in a && b[j - |a|] in b; }
    }
  }

  /** What is around a leaf is ahead of it or behind it, or the leaf. */
  lemma {:induction false} AheadOrBehind(routes: Routes, leaf: seq<nat>, place: seq<nat>)
    requires IsLeaf(routes, leaf) && IsAround(routes, leaf, place)
    ensures place == leaf || IsAhead(leaf, place) || IsBehind(leaf, place)
    decreases |leaf|
  {
    if |leaf| == 1 {
      IsAroundAlone(routes, leaf, place);
      assert place[0] == leaf[0] ==> place == leaf;
    } else {
      IsAroundUnder(routes, leaf, place);
      if 1 < |place| {
        AheadOrBehind(routes[leaf[0]].entry.routes, leaf[1..], place[1..]);
        assert place == [place[0]] + place[1..] && leaf == [leaf[0]] + leaf[1..];
      }
    }
  }

  lemma LevelIsSorted(routes: Routes, leaf: seq<nat>, lo: nat, hi: nat)
    requires leaf != [] && lo <= hi <= |routes| && (hi <= leaf[0] || leaf[0] < lo)
    ensures Sorted(leaf, Places(routes, lo, hi))
  {
    hide Places;
    PlacesAre(routes, lo, hi);
    PlacesAscend(routes, lo, hi);
    var ps := Places(routes, lo, hi);
    forall i, j | 0 <= i < j < |ps| ensures RunsBefore(leaf, ps[i], ps[j]) {
      var a, b := ps[i], ps[j];
      assert a in ps && b in ps;
      assert a[0] < b[0] && (b[0] < leaf[0] || leaf[0] < a[0]);
    }
  }

  /** What stands in the middle of a level: the leaf, or what is inside its group. */
  ghost predicate InTheMiddle(leaf: seq<nat>, mid: seq<seq<nat>>) {
    forall place :: place in mid ==>
      place == leaf || (1 < |place| <= |leaf| && (IsAhead(leaf, place) || IsBehind(leaf, place)))
  }

  lemma MiddleIsAfter(routes: Routes, leaf: seq<nat>, mid: seq<seq<nat>>)
    requires leaf != [] && leaf[0] < |routes| && InTheMiddle(leaf, mid)
    ensures AllBefore(leaf, Places(routes, 0, leaf[0]), mid)
    ensures AllBefore(leaf, mid, Places(routes, leaf[0] + 1, |routes|))
    ensures AllBefore(leaf, Places(routes, 0, leaf[0]), Places(routes, leaf[0] + 1, |routes|))
  {
    hide Places;
    PlacesAre(routes, 0, leaf[0]);
    PlacesAre(routes, leaf[0] + 1, |routes|);
  }

  lemma MiddleRuns(routes: Routes, leaf: seq<nat>)
    requires IsLeaf(routes, leaf) && 1 < |leaf|
    requires IsOrder(routes[leaf[0]].entry.routes, leaf[1..], Order(routes[leaf[0]].entry.routes, leaf[1..]))
    ensures var mid := Under(leaf[0], Order(routes[leaf[0]].entry.routes, leaf[1..]));
            Sorted(leaf, mid) && InTheMiddle(leaf, mid)
  {
    hide RunsBefore, Order, IsAhead, IsBehind;
    var sub := routes[leaf[0]].entry.routes;
    var inner := Order(sub, leaf[1..]);
    var mid := Under(leaf[0], inner);
    forall i | 0 <= i < |inner| ensures inner[i] != [] && IsAround(sub, leaf[1..], inner[i]) {
      assert inner[i] in inner;
    }
    forall i, j | 0 <= i < j < |mid| ensures RunsBefore(leaf, mid[i], mid[j]) {
      RunsBeforeUnder(leaf, inner[i], inner[j]);
    }
    forall place | place in mid
      ensures place == leaf || (1 < |place| <= |leaf| && (IsAhead(leaf, place) || IsBehind(leaf, place)))
    {
      var i :| 0 <= i < |mid| && mid[i] == place;
      AheadOrBehind(sub, leaf[1..], inner[i]);
      SameSide(leaf, inner[i]);
    }
  }

  lemma SameSide(leaf: seq<nat>, place: seq<nat>)
    requires 1 < |leaf| && place != []
    ensures place == leaf[1..] ==> [leaf[0]] + place == leaf
    ensures IsAhead(leaf[1..], place) ==> IsAhead(leaf, [leaf[0]] + place)
    ensures IsBehind(leaf[1..], place) ==> IsBehind(leaf, [leaf[0]] + place)
  {
    assert leaf == [leaf[0]] + leaf[1..];
  }

  lemma {:induction false} OrderRuns(routes: Routes, leaf: seq<nat>)
    requires IsLeaf(routes, leaf)
    ensures IsOrder(routes, leaf, Order(routes, leaf))
    decreases |leaf|
  {
    hide RunsBefore, IsAround, Places, Under, Sorted, AllBefore, InTheMiddle;
    forall place ensures place in Order(routes, leaf) <==> IsAround(routes, leaf, place) {
      OrderHolds(routes, leaf, place);
    }
    var i, n := leaf[0], |routes|;
    var ahead, behind := Places(routes, 0, i), Places(routes, i + 1, n);
    var mid := [leaf];
    if |leaf| == 1 {
      AloneIsMiddle(leaf);
    } else {
      OrderRuns(routes[i].entry.routes, leaf[1..]);
      mid := Under(i, Order(routes[i].entry.routes, leaf[1..]));
      MiddleRuns(routes, leaf);
    }
    MiddleIsAfter(routes, leaf, mid);
    LevelIsSorted(routes, leaf, 0, i);
    LevelIsSorted(routes, leaf, i + 1, n);
    SortedConcat(leaf, ahead, mid);
    BothBefore(leaf, ahead, mid, behind);
    SortedConcat(leaf, ahead + mid, behind);
    assert Order(routes, leaf) == ahead + mid + behind;
    SortedIs(leaf, Order(routes, leaf));
  }

  lemma AloneIsMiddle(leaf: seq<nat>)
    ensures Sorted(leaf, [leaf]) && InTheMiddle(leaf, [leaf])
  {
  }

  lemma BothBefore(leaf: seq<nat>, a: seq<seq<nat>>, b: seq<seq<nat>>, c: seq<seq<nat>>)
    requires AllBefore(leaf, a, c) && AllBefore(leaf, b, c)
    ensures AllBefore(leaf, a + b, c)
  {
    hide RunsBefore;
  }

  lemma SortedIs(leaf: seq<nat>, order: seq<seq<nat>>)
    requires Sorted(leaf, order)
    ensures forall i, j :: 0 <= i < j < |order| ==> RunsBefore(leaf, order[i], order[j])
  {
    hide RunsBefore;
  }

  // ---------- What a leaf's chain is made of ----------

  lemma MadeOfConcat(
    a: seq<RemoteMethod>, b: seq<RemoteMethod>, above: seq<string>, level: nat, routes: Routes, x: seq<seq<nat>>,
    y: seq<seq<nat>>)
    requires AreMadeOf(a, above, level, routes, x) && AreMadeOf(b, above, level, routes, y)
    ensures AreMadeOf(a + b, above, level, routes, x + y)
  {
    hide IsMadeOf;
  }

  lemma MadeOfUnder(
    ms: seq<RemoteMethod>, above: seq<string>, level: nat, routes: Routes, i: nat, order: seq<seq<nat>>)
    requires i < |routes| && routes[i].entry.Group?
    requires AreMadeOf(ms, above + [routes[i].key], level + 1, routes[i].entry.routes, order)
    ensures AreMadeOf(ms, above, level, routes, Under(i, order))
  {
    hide Slashed;
    forall k | 0 <= k < |ms| ensures IsMadeOf(ms[k], above, level, routes, Under(i, order)[k]) {
      assert IsMadeOf(ms[k], above + [routes[i].key], level + 1, routes[i].entry.routes, order[k]);
      var place := Under(i, order)[k];
      assert place[1..] == order[k];
      assert KeysTo(routes, place) == [routes[i].key] + KeysTo(routes[i].entry.routes, order[k]);
    }
  }

  /** The middleFns before a leaf, its route and the middleFns after it are what is around it, in order. */
  lemma {:induction false} LeafIsMadeOf(routes: Routes, above: seq<string>, level: nat, leaf: seq<nat>)
    requires IsLeaf(routes, leaf)
    ensures AreMadeOf(
              Before(routes, above, level, leaf) + [RouteOf(routes, above, level, leaf)] +
                After(routes, above, level, leaf),
              above, level, routes, Order(routes, leaf))
    decreases |leaf|
  {
    hide Middles, Places, Slashed, JoinPointer, AreMadeOf, Under;
    var i, n := leaf[0], |routes|;
    var ahead, behind := Middles(routes, above, level, 0, i), Middles(routes, above, level, i + 1, n);
    MiddlesAreMadeOf(routes, above, level, 0, i);
    MiddlesAreMadeOf(routes, above, level, i + 1, n);
    var mid, places := MiddleOf(routes, above, level, leaf);
    MadeOfConcat(ahead, mid, above, level, routes, Places(routes, 0, i), places);
    MadeOfConcat(ahead + mid, behind, above, level, routes, Places(routes, 0, i) + places, Places(routes, i + 1, n));
    assert ahead + mid + behind ==
           Before(routes, above, level, leaf) + [RouteOf(routes, above, level, leaf)] +
             After(routes, above, level, leaf);
  }

  lemma MiddleOf(routes: Routes, above: seq<string>, level: nat, leaf: seq<nat>)
    returns (mid: seq<RemoteMethod>, places: seq<seq<nat>>)
    requires IsLeaf(routes, leaf)
    ensures AreMadeOf(mid, above, level, routes, places)
    ensures places == if |leaf| == 1 then [leaf] else Under(leaf[0], Order(routes[leaf[0]].entry.routes, leaf[1..]))
    ensures Before(routes, above, level, leaf) + [RouteOf(routes, above, level, leaf)] +
        After(routes, above, level, leaf)
            == Middles(routes, above, level, 0, leaf[0]) + mid + Middles(routes, above, level, leaf[0] + 1, |routes|)
    decreases |leaf|, 0
  {
    hide Before, After, RouteOf, AreMadeOf, Middles, Order, Under, PointerOf;
    if |leaf| == 1 {
      mid, places := AloneOf(routes, above, level, leaf);
    } else {
      var i, sub, inner := leaf[0], routes[leaf[0]].entry.routes, above + [routes[leaf[0]].key];
      LeafIsMadeOf(sub, inner, level + 1, leaf[1..]);
      var b, r, a := Before(sub, inner, level + 1, leaf[1..]), RouteOf(sub, inner, level + 1, leaf[1..]),
        After(sub, inner, level + 1, leaf[1..]);
      mid, places := b + [r] + a, Under(i, Order(sub, leaf[1..]));
      MadeOfUnder(mid, above, level, routes, i, Order(sub, leaf[1..]));
      NestedListsAgree(routes, above, level, leaf);
      SameRoute(routes, above, level, leaf);
      Regrouped(Middles(routes, above, level, 0, i), b, [r], a, Middles(routes, above, level, i + 1, |routes|));
    }
  }

  lemma Regrouped<T>(m: seq<T>, b: seq<T>, r: seq<T>, a: seq<T>, n: seq<T>)
    ensures (m + b) + r + (a + n) == m + (b + r + a) + n
  {
  }

  lemma SameRoute(routes: Routes, above: seq<string>, level: nat, leaf: seq<nat>)
    requires IsLeaf(routes, leaf) && 1 < |leaf|
    ensures RouteOf(routes, above, level, leaf) ==
            RouteOf(routes[leaf[0]].entry.routes, above + [routes[leaf[0]].key], level + 1, leaf[1..])
  {
    hide JoinPointer;
    var inner := above + [routes[leaf[0]].key];
    assert above + PointerOf(routes, leaf) == inner + PointerOf(routes[leaf[0]].entry.routes, leaf[1..]);
  }

  lemma AloneOf(routes: Routes, above: seq<string>, level: nat, leaf: seq<nat>)
    returns (mid: seq<RemoteMethod>, places: seq<seq<nat>>)
    requires IsLeaf(routes, leaf) && |leaf| == 1
    ensures AreMadeOf(mid, above, level, routes, places) && places == [leaf]
    ensures Before(routes, above, level, leaf) + [RouteOf(routes, above, level, leaf)] +
        After(routes, above, level, leaf)
            == Middles(routes, above, level, 0, leaf[0]) + mid + Middles(routes, above, level, leaf[0] + 1, |routes|)
  {
    hide Middles, Slashed, JoinPointer;
    mid, places := [RouteOf(routes, above, level, leaf)], [leaf];
    assert above + PointerOf(routes, leaf) == above + [routes[leaf[0]].key];
    IdIsSlashed(above + [routes[leaf[0]].key]);
    assert Before(routes, above, level, leaf) == Middles(routes, above, level, 0, leaf[0]);
    assert After(routes, above, level, leaf) == Middles(routes, above, level, leaf[0] + 1, |routes|);
  }

  // ---------- What a registered route runs ----------

  /** The path of a leaf: the base with a slash at either end, its keys with slashes in between, the suffix. */
  function PathOf(keys: seq<string>, opts: PathOptions): string {
    var rooted := (if opts.basePath != "" && opts.basePath[0] == '/' then "" else "/") + opts.basePath;
    rooted + (if rooted[|rooted| - 1] == '/' then "" else "/") + Slashed(keys) + opts.suffix
  }

  /** The method that runs for one just made: the one cached before under its id, among the routes, the raw middleFns
      or the other middleFns, whichever it is; else itself. */
  ghost predicate RunsFor(cache: Cache, m: RemoteMethod, made: RemoteMethod) {
    var slot := match made.kind case Route => RouteSlot case RawMiddleFn => RawSlot case MiddleFn => MiddleSlot
      case HeadersMiddleFn => MiddleSlot;
    m == if (slot, made.id) in cache then cache[(slot, made.id)] else made
  }

  ghost predicate AllRunFor(cache: Cache, ms: seq<RemoteMethod>, made: seq<RemoteMethod>) {
    |ms| == |made| && forall i :: 0 <= i < |ms| ==> RunsFor(cache, ms[i], made[i])
  }

  /** How a route's result is sent, as its definition says. */
  ghost predicate SentAs(serializer: Serializer, mode: SerializerMode) {
    match mode
    case JsonMode => serializer == Json
    case BinaryMode => serializer == Binary
    case StringifyMode => serializer == StringifyJson
    case OptimisticMode => serializer == StringifyJson
  }

  /** A chain runs the start methods, then these, then the end methods, and is sent as its route says. */
  ghost predicate RunsThese(
    c: Chain, start: seq<RemoteMethod>, made: seq<RemoteMethod>, end: seq<RemoteMethod>, cache: Cache)
  {
    && |c.methods| == |start| + |made| + |end|
    && AllRunFor(cache, c.methods[..|start|], start)
    && AllRunFor(cache, c.methods[|start|..|start| + |made|], made)
    && AllRunFor(cache, c.methods[|start| + |made|..], end)
    && |start| <= c.routeIndex < |start| + |made|
    && SentAs(c.serializer, c.methods[c.routeIndex].def.serializer)
  }

  /** What runs between start and end methods is what is around the leaf, in order, and the index points at the leaf. */
  ghost predicate RunsInOrder(
    c: Chain, start: seq<RemoteMethod>, made: seq<RemoteMethod>, end: seq<RemoteMethod>, routes: Routes,
    leaf: seq<nat>, order: seq<seq<nat>>, cache: Cache)
  {
    && IsOrder(routes, leaf, order) && AreMadeOf(made, [], 0, routes, order)
    && RunsThese(c, start, made, end, cache) && order[c.routeIndex - |start|] == leaf
  }

  /** After a tree is registered, the path of each of its leaves holds a chain that runs in order. */
  lemma LeafRunsInOrder(
    routes: Routes, start: seq<RemoteMethod>, end: seq<RemoteMethod>, opts: PathOptions, cache: Cache,
    router: map<string, Chain>, leaf: seq<nat>)
    returns (made: seq<RemoteMethod>, order: seq<seq<nat>>)
    requires IsLeaf(routes, leaf) && NoDup(Ids(routes, [], true, |routes|))
    ensures IsPlace(routes, leaf) && EntryAt(routes, leaf).kind.Route?
    ensures var after := Filed(router, ReusedItems(cache, Flatten(routes, RootFrame(start, end, opts), |routes|)));
            var path := PathOf(KeysTo(routes, leaf), opts);
            path in after && RunsInOrder(after[path], start, made, end, routes, leaf, order, cache)
  {
    hide Ids, Filed, Flatten, Before, After, RouteOf, IsLeaf, IsOrder, AreMadeOf, JoinPointer, Slashed, ReusedChain,
      RunsThese, Order, PathAt, PathOf, ReusedItems;
    var f := RootFrame(start, end, opts);
    EveryLeafIsServed(routes, f, cache, router, leaf);
    LeafIsPlace(routes, leaf);
    PathIsSpelled(routes, f, leaf);
    var before, route, behind := Before(routes, [], 0, leaf), RouteOf(routes, [], 0, leaf), After(routes, [], 0, leaf);
    made, order := before + [route] + behind, Order(routes, leaf);
    LeafIsMadeOf(routes, [], 0, leaf);
    OrderRuns(routes, leaf);
    LeafStands(routes, [], 0, leaf, made, order, |before|);
    UsedRuns(cache, f, before, route, behind);
  }

  lemma UsedRuns(cache: Cache, f: Frame, before: seq<RemoteMethod>, route: RemoteMethod, behind: seq<RemoteMethod>)
    requires f.pre == [] && f.post == []
    ensures var c := ReusedChain(cache, ChainOf(f, before, route, behind));
            c.routeIndex == |f.start| + |before| && RunsThese(c, f.start, before + [route] + behind, f.end, cache)
  {
    hide RunsFor;
    var c, made := ReusedChain(cache, ChainOf(f, before, route, behind)), before + [route] + behind;
    assert ChainOf(f, before, route, behind).methods == f.start + made + f.end;
    AllReused(cache, f.start);
    AllReused(cache, made);
    AllReused(cache, f.end);
    ReusedAllConcat(cache, f.start + made, f.end);
    ReusedAllConcat(cache, f.start, made);
    assert c.methods == ReusedAll(cache, f.start) + ReusedAll(cache, made) + ReusedAll(cache, f.end);
    assert c.methods[..|f.start|] == ReusedAll(cache, f.start);
    assert c.methods[|f.start|..|f.start| + |made|] == ReusedAll(cache, made);
    assert c.methods[|f.start| + |made|..] == ReusedAll(cache, f.end);
  }

  lemma PathIsSpelled(routes: Routes, f: Frame, leaf: seq<nat>)
    requires IsLeaf(routes, leaf) && f.pointer == []
    ensures IsPlace(routes, leaf) && PathAt(routes, f, leaf) == PathOf(KeysTo(routes, leaf), f.opts)
  {
    hide JoinPointer, Slashed, RoutePath;
    LeafIsPlace(routes, leaf);
    assert [] + PointerOf(routes, leaf) == PointerOf(routes, leaf);
    IdIsSlashed(PointerOf(routes, leaf));
    RoutePathIsSpelled(PointerOf(routes, leaf), f.opts);
  }

  lemma RoutePathIsSpelled(keys: seq<string>, opts: PathOptions)
    ensures RoutePath(Slashed(keys), opts) == PathOf(keys, opts)
  {
    hide Slashed;
    if "/" <= opts.basePath {
      assert opts.basePath[0] == '/';
      assert "" + opts.basePath == opts.basePath;
    }
    var base, rooted := BasePath(opts), (if "/" <= opts.basePath then "" else "/") + opts.basePath;
    assert base == rooted + if rooted[|rooted| - 1] == '/' then "" else "/";
  }

  lemma AllReused(cache: Cache, ms: seq<RemoteMethod>)
    ensures AllRunFor(cache, ReusedAll(cache, ms), ms)
  {
  }

  /** The leaf's own place is where its route stands. */
  lemma LeafStands(
    routes: Routes, above: seq<string>, level: nat, leaf: seq<nat>, made: seq<RemoteMethod>, order: seq<seq<nat>>,
    at: nat)
    requires IsLeaf(routes, leaf) && order == Order(routes, leaf) && IsOrder(routes, leaf, order)
    requires AreMadeOf(made, above, level, routes, order) && at < |made|
    requires made == Before(routes, above, level, leaf) + [RouteOf(routes, above, level, leaf)] +
                     After(routes, above, level, leaf) && at == |Before(routes, above, level, leaf)|
    ensures order[at] == leaf
  {
    hide Before, After, Order, JoinPointer, Slashed, RunsBefore;
    assert IsMadeOf(made[at], above, level, routes, order[at]);
    assert order[at] in order;
    assert made[at].kind.Route?;
  }

  /** Where a tree registers whose middleFns are named like no start or end one, a leaf's chain is the start methods,
      what is around the leaf in order, and the end methods, each as it was made. */
  lemma RegisteredLeafRuns(
    routes: Routes, cache: Cache, startDefs: seq<Keyed>, endDefs: seq<Keyed>, opts: PathOptions,
    isNumeric: string -> bool, middleNames: set<string>, routeNames: set<string>, router: map<string, Chain>,
    leaf: seq<nat>)
    returns (made: seq<RemoteMethod>, order: seq<seq<nat>>)
    requires AllMiddles(startDefs) && AllMiddles(endDefs) && IsLeaf(routes, leaf)
    requires WellKeyed(cache) && Known(cache, startDefs + endDefs, middleNames, routeNames)
    requires Registers(routes, [], 0, isNumeric, middleNames, routeNames) && ClearOf(routes, startDefs + endDefs)
    ensures IsPlace(routes, leaf) && IsOrder(routes, leaf, order) && AreMadeOf(made, [], 0, routes, order)
    ensures var first := Cached(cache, startDefs);
            var start, end := Collection(cache, startDefs), Collection(first, endDefs);
            var after := Filed(router, ReusedItems(Cached(first, endDefs),
                Flatten(routes, RootFrame(start, end, opts), |routes|)));
            var path := PathOf(KeysTo(routes, leaf), opts);
            path in after && after[path].methods == start + made + end
  {
    hide Ids, Filed, Flatten, IsLeaf, IsOrder, AreMadeOf, PathOf, ReusedItems, Cached, Collection, ClearOf, Known,
      WellKeyed, ShapeOk, AllUseTheirOwn, KeysTo;
    var first := Cached(cache, startDefs);
    var start, end, both := Collection(cache, startDefs), Collection(first, endDefs), Cached(first, endDefs);
    RegisteredTreeIsServedAsWritten(routes, cache, startDefs, endDefs, opts, isNumeric, middleNames, routeNames);
    made, order := OwnLeafRuns(routes, start, end, opts, both, router, leaf);
  }

  lemma OwnLeafRuns(
    routes: Routes, start: seq<RemoteMethod>, end: seq<RemoteMethod>, opts: PathOptions, cache: Cache,
    router: map<string, Chain>, leaf: seq<nat>)
    returns (made: seq<RemoteMethod>, order: seq<seq<nat>>)
    requires IsLeaf(routes, leaf) && NoDup(Ids(routes, [], true, |routes|))
    requires AllUseTheirOwn(routes, RootFrame(start, end, opts), cache)
    ensures IsPlace(routes, leaf) && IsOrder(routes, leaf, order) && AreMadeOf(made, [], 0, routes, order)
    ensures var after := Filed(router, ReusedItems(cache, Flatten(routes, RootFrame(start, end, opts), |routes|)));
            var path := PathOf(KeysTo(routes, leaf), opts);
            path in after && after[path].methods == start + made + end
  {
    hide Ids, Filed, Flatten, Before, After, RouteOf, IsLeaf, IsOrder, AreMadeOf, JoinPointer, Slashed, ReusedChain,
      Order, PathAt, PathOf, ReusedItems, UsesItsOwn, KeysTo, SerializerCodeOf;
    var f := RootFrame(start, end, opts);
    EveryLeafIsServed(routes, f, cache, router, leaf);
    LeafIsPlace(routes, leaf);
    PathIsSpelled(routes, f, leaf);
    FlattenCoversLeavesOf(routes, f, leaf);
    var item := (PathAt(routes, f, leaf), ChainAt(routes, f, leaf));
    SerializerIsTheRoutes(routes, f, |routes|, item);
    ReusedChainIsOwnIff(cache, item.1);
    var before, route, behind := Before(routes, [], 0, leaf), RouteOf(routes, [], 0, leaf), After(routes, [], 0, leaf);
    made, order := before + [route] + behind, Order(routes, leaf);
    LeafIsMadeOf(routes, [], 0, leaf);
    OrderRuns(routes, leaf);
    assert item.1.methods == start + made + end;
  }

  /** What is fetched for a definition: a middleFn under its key, and the one it defines if the key was not taken. */
  ghost predicate IsFetchedFor(m: RemoteMethod, k: Keyed, taken: bool)
    requires k.entry.Item?
  {
    && m.id == k.key && !m.kind.Route?
    && (!taken ==> m == RemoteMethod(k.key, k.entry.kind, [k.key], 0, k.entry.def))
  }

  ghost predicate IsTaken(cache: Cache, defs: seq<Keyed>, i: nat)
    requires i < |defs|
  {
    (exists slot :: (slot, defs[i].key) in cache) || exists j :: 0 <= j < i && defs[j].key == defs[i].key
  }

  /** The start, or end, methods are those of their definitions, in their order. */
  lemma {:induction false} CollectionIsInOrder(cache: Cache, defs: seq<Keyed>)
    requires AllMiddles(defs) && WellKeyed(cache)
    ensures |Collection(cache, defs)| == |defs|
    ensures forall i :: 0 <= i < |defs| ==>
              defs[i].entry.Item? && IsFetchedFor(Collection(cache, defs)[i], defs[i], IsTaken(cache, defs, i))
  {
    hide IsFetchedFor, Cached;
    if defs != [] {
      var n := |defs| - 1;
      assert defs[n] in defs;
      CollectionIsInOrder(cache, defs[..n]);
      forall i | 0 <= i < n ensures IsTaken(cache, defs[..n], i) == IsTaken(cache, defs, i) {
        assert forall j :: 0 <= j <= i ==> defs[..n][j] == defs[j];
      }
      LastFetched(cache, defs);
    }
  }

  lemma LastFetched(cache: Cache, defs: seq<Keyed>)
    requires AllMiddles(defs) && WellKeyed(cache) && defs != [] && defs[|defs| - 1].entry.Item?
    ensures var n := |defs| - 1;
            IsFetchedFor(Reused(Cached(cache, defs[..n]), Made(defs[n])), defs[n], IsTaken(cache, defs, n))
  {
    hide Cached, Extends, CachesAll, Collection;
    var n := |defs| - 1;
    assert defs[n] in defs;
    CollectionSettles(cache, defs[..n]);
    var before, made := Cached(cache, defs[..n]), Made(defs[n]);
    assert made.id == defs[n].key;
    if KeyOf(made) in DefKeys(defs[..n]) {
      var k :| k in defs[..n] && k.entry.Item? && KeyOf(Made(k)) == KeyOf(made);
      var j :| 0 <= j < n && defs[..n][j] == k;
      assert defs[j].key == defs[n].key;
    }
    if KeyOf(made) in cache { assert (KeyOf(made).0, defs[n].key) in cache; }
  }

  // ---------- Which trees register ----------

  /** Any entry of the tree, a group too, is named by the index taken at each level. */
  predicate IsEntry(routes: Routes, at: seq<nat>) {
    && at != [] && at[0] < |routes|
    && (|at| == 1 || (routes[at[0]].entry.Group? && IsEntry(routes[at[0]].entry.routes, at[1..])))
  }

  function KeyedAt(routes: Routes, at: seq<nat>): Keyed
    requires IsEntry(routes, at)
  {
    if |at| == 1 then routes[at[0]] else KeyedAt(routes[at[0]].entry.routes, at[1..])
  }

  /** What is asked of an entry: its name, that it is a route, a middleFn or a group, and that a group is not empty and
      not nested deeper than ten levels. */
  ghost predicate IsFit(k: Keyed, level: nat, isNumeric: string -> bool) {
    && !isNumeric(k.key) && ',' !in k.key && k.key != "mion-routes-flow"
    && match k.entry
       case Item(_, _) => true
       case Group(sub) => sub != [] && level < 10
       case NotARoute => false
  }

  ghost predicate AllFit(routes: Routes, level: nat, isNumeric: string -> bool) {
    forall at :: IsEntry(routes, at) ==> IsFit(KeyedAt(routes, at), level + |at| - 1, isNumeric)
  }

  lemma AllFitIff(routes: Routes, level: nat, isNumeric: string -> bool)
    ensures AllFit(routes, level, isNumeric) <==>
              forall i :: 0 <= i < |routes| ==>
                && IsFit(routes[i], level, isNumeric)
                && (routes[i].entry.Group? ==> AllFit(routes[i].entry.routes, level + 1, isNumeric))
  {
    hide IsFit;
    if AllFit(routes, level, isNumeric) {
      forall i | 0 <= i < |routes|
        ensures IsFit(routes[i], level, isNumeric)
        ensures routes[i].entry.Group? ==> AllFit(routes[i].entry.routes, level + 1, isNumeric)
      {
        assert IsEntry(routes, [i]) && KeyedAt(routes, [i]) == routes[i];
        if routes[i].entry.Group? {
          forall at | IsEntry(routes[i].entry.routes, at)
            ensures IsFit(KeyedAt(routes[i].entry.routes, at), level + 1 + |at| - 1, isNumeric)
          {
            assert ([i] + at)[1..] == at;
            assert IsEntry(routes, [i] + at);
          }
        }
      }
    } else {
      var at :| IsEntry(routes, at) && !IsFit(KeyedAt(routes, at), level + |at| - 1, isNumeric);
      if 1 < |at| { assert IsEntry(routes[at[0]].entry.routes, at[1..]); }
    }
  }

  lemma {:induction false} ShapeOkIff(routes: Routes, level: nat, isNumeric: string -> bool)
    requires level <= 10
    ensures ShapeOk(routes, level, isNumeric) <==> routes != [] && AllFit(routes, level, isNumeric)
    decreases routes
  {
    hide AllFit;
    AllFitIff(routes, level, isNumeric);
    forall i | 0 <= i < |routes| && routes[i].entry.Group? && level < 10
      ensures ShapeOk(routes[i].entry.routes, level + 1, isNumeric) <==>
                routes[i].entry.routes != [] && AllFit(routes[i].entry.routes, level + 1, isNumeric)
    {
      ShapeOkIff(routes[i].entry.routes, level + 1, isNumeric);
    }
    forall i | 0 <= i < |routes|
      ensures EntryOk(routes[i], level, isNumeric) <==>
                && IsFit(routes[i], level, isNumeric)
                && (routes[i].entry.Group? ==> AllFit(routes[i].entry.routes, level + 1, isNumeric))
    {
    }
  }

  /** A route, or a middleFn, among the first n entries, with this id. */
  ghost predicate Bears(routes: Routes, above: seq<string>, ofRoutes: bool, n: nat, place: seq<nat>, id: string) {
    && IsPlace(routes, place) && place[0] < n && EntryAt(routes, place).kind.Route? == ofRoutes
    && Slashed(above + KeysTo(routes, place)) == id
  }

  /** No two of them have one id. */
  ghost predicate BearDistinct(routes: Routes, above: seq<string>, ofRoutes: bool, n: nat) {
    forall a, b, id :: Bears(routes, above, ofRoutes, n, a, id) && Bears(routes, above, ofRoutes, n, b, id) ==> a == b
  }

  lemma BearsNext(routes: Routes, above: seq<string>, ofRoutes: bool, n: nat, place: seq<nat>, id: string)
    requires 0 < n <= |routes|
    ensures var here := routes[n - 1];
            Bears(routes, above, ofRoutes, n, place, id) <==>
              || Bears(routes, above, ofRoutes, n - 1, place, id)
              || (place == [n - 1] && here.entry.Item? && here.entry.kind.Route? == ofRoutes
                  && Slashed(above + [here.key]) == id)
              || (1 < |place| && place[0] == n - 1 && here.entry.Group?
                  && Bears(here.entry.routes, above + [here.key], ofRoutes, |here.entry.routes|, place[1..], id))
  {
    hide Slashed;
    if place != [] && place[0] == n - 1 {
      if |place| == 1 {
        assert place == [n - 1];
      } else if routes[n - 1].entry.Group? && IsPlace(routes[n - 1].entry.routes, place[1..]) {
        var here := routes[n - 1];
        assert above + KeysTo(routes, place) == above + [here.key] + KeysTo(here.entry.routes, place[1..]);
      }
    }
  }

  lemma IdsStep(routes: Routes, above: seq<string>, ofRoutes: bool, n: nat)
    requires 0 < n <= |routes|
    ensures var here := routes[n - 1];
            Ids(routes, above, ofRoutes, n) == Ids(routes, above, ofRoutes, n - 1) +
              match here.entry
              case Item(kind, _) => if kind.Route? == ofRoutes then [Slashed(above + [here.key])] else []
              case Group(sub) => Ids(sub, above + [here.key], ofRoutes, |sub|)
              case NotARoute => []
  {
    hide Slashed, JoinPointer;
    IdIsSlashed(above + [routes[n - 1].key]);
  }

  /** The ids listed are those of the places. */
  lemma {:induction false} IdsAreBorne(routes: Routes, above: seq<string>, ofRoutes: bool, n: nat, id: string)
    requires n <= |routes|
    ensures id in Ids(routes, above, ofRoutes, n) <==> exists place :: Bears(routes, above, ofRoutes, n, place, id)
    decreases routes, n
  {
    hide Ids, Slashed, IsPlace, EntryAt, KeysTo;
    if n == 0 {
      NoIds(routes, above, ofRoutes);
    } else {
      var here, m := routes[n - 1], n - 1;
      IdsStep(routes, above, ofRoutes, n);
      IdsAreBorne(routes, above, ofRoutes, m, id);
      if here.entry.Group? {
        IdsAreBorne(here.entry.routes, above + [here.key], ofRoutes, |here.entry.routes|, id);
      }
      hide Bears;
      if id in Ids(routes, above, ofRoutes, n) {
        if id in Ids(routes, above, ofRoutes, m) {
          var place :| Bears(routes, above, ofRoutes, m, place, id);
          BearsNext(routes, above, ofRoutes, n, place, id);
        } else if here.entry.Group? {
          var sub := here.entry.routes;
          var place :| Bears(sub, above + [here.key], ofRoutes, |sub|, place, id);
          BearsSomething(sub, above + [here.key], ofRoutes, |sub|, place, id);
          assert ([m] + place)[1..] == place;
          BearsNext(routes, above, ofRoutes, n, [m] + place, id);
        } else {
          BearsNext(routes, above, ofRoutes, n, [m], id);
        }
      }
      if place :| Bears(routes, above, ofRoutes, n, place, id) { BearsNext(routes, above, ofRoutes, n, place, id); }
    }
  }

  lemma NoIds(routes: Routes, above: seq<string>, ofRoutes: bool)
    ensures Ids(routes, above, ofRoutes, 0) == []
    ensures forall place, id :: !Bears(routes, above, ofRoutes, 0, place, id)
  {
  }

  /** The ids of one entry, and of what is below it. */
  function OwnIdsAt(routes: Routes, above: seq<string>, ofRoutes: bool, i: nat): seq<string>
    requires i < |routes|
  {
    match routes[i].entry
    case Item(kind, _) => if kind.Route? == ofRoutes then [Slashed(above + [routes[i].key])] else []
    case Group(sub) => Ids(sub, above + [routes[i].key], ofRoutes, |sub|)
    case NotARoute => []
  }

  /** The places of one entry, and of what is below it. */
  ghost predicate OwnBears(routes: Routes, above: seq<string>, ofRoutes: bool, i: nat, place: seq<nat>, id: string)
    requires i < |routes|
  {
    Bears(routes, above, ofRoutes, i + 1, place, id) && place[0] == i
  }

  lemma OwnIdsAreBorne(routes: Routes, above: seq<string>, ofRoutes: bool, i: nat, id: string)
    requires i < |routes|
    ensures id in OwnIdsAt(routes, above, ofRoutes, i) <==>
              exists place :: OwnBears(routes, above, ofRoutes, i, place, id)
  {
    hide Slashed, Bears, Ids, OwnBears;
    var here := routes[i];
    if here.entry.Group? {
      var sub := here.entry.routes;
      IdsAreBorne(sub, above + [here.key], ofRoutes, |sub|, id);
      if place :| Bears(sub, above + [here.key], ofRoutes, |sub|, place, id) {
        BearsSomething(sub, above + [here.key], ofRoutes, |sub|, place, id);
        assert ([i] + place)[1..] == place;
        OwnBearsIs(routes, above, ofRoutes, i, [i] + place, id);
      }
    } else {
      OwnBearsIs(routes, above, ofRoutes, i, [i], id);
    }
    if place :| OwnBears(routes, above, ofRoutes, i, place, id) {
      OwnBearsIs(routes, above, ofRoutes, i, place, id);
    }
  }

  lemma OwnBearsIs(routes: Routes, above: seq<string>, ofRoutes: bool, i: nat, place: seq<nat>, id: string)
    requires i < |routes|
    ensures var here := routes[i];
            OwnBears(routes, above, ofRoutes, i, place, id) <==>
              || (place == [i] && here.entry.Item? && here.entry.kind.Route? == ofRoutes
                  && Slashed(above + [here.key]) == id)
              || (1 < |place| && place[0] == i && here.entry.Group?
                  && Bears(here.entry.routes, above + [here.key], ofRoutes, |here.entry.routes|, place[1..], id))
  {
    hide Slashed, Bears;
    BearsNext(routes, above, ofRoutes, i + 1, place, id);
    NotYet(routes, above, ofRoutes, i, place, id);
  }

  lemma NotYet(routes: Routes, above: seq<string>, ofRoutes: bool, i: nat, place: seq<nat>, id: string)
    requires i < |routes|
    ensures Bears(routes, above, ofRoutes, i, place, id) ==> place != [] && place[0] < i
    ensures OwnBears(routes, above, ofRoutes, i, place, id) ==> place != [] && place[0] == i
    ensures Bears(routes, above, ofRoutes, i + 1, place, id) <==>
              Bears(routes, above, ofRoutes, i, place, id) || OwnBears(routes, above, ofRoutes, i, place, id)
  {
  }

  ghost predicate OwnBearDistinct(routes: Routes, above: seq<string>, ofRoutes: bool, i: nat)
    requires i < |routes|
  {
    forall a, b, id :: OwnBears(routes, above, ofRoutes, i, a, id) && OwnBears(routes, above, ofRoutes, i, b, id) ==>
      a == b
  }

  lemma OwnBearDistinctIff(routes: Routes, above: seq<string>, ofRoutes: bool, i: nat)
    requires i < |routes|
    ensures OwnBearDistinct(routes, above, ofRoutes, i) <==>
              match routes[i].entry
              case Group(sub) => BearDistinct(sub, above + [routes[i].key], ofRoutes, |sub|)
              case _ => true
  {
    hide Slashed, Bears, OwnBears;
    var here := routes[i];
    if OwnBearDistinct(routes, above, ofRoutes, i) && here.entry.Group? {
      var sub, inner := here.entry.routes, above + [here.key];
      forall a, b, id | Bears(sub, inner, ofRoutes, |sub|, a, id) && Bears(sub, inner, ofRoutes, |sub|, b, id)
        ensures a == b
      {
        BearsSomething(sub, inner, ofRoutes, |sub|, a, id);
        BearsSomething(sub, inner, ofRoutes, |sub|, b, id);
        assert ([i] + a)[1..] == a && ([i] + b)[1..] == b;
        OwnBearsIs(routes, above, ofRoutes, i, [i] + a, id);
        OwnBearsIs(routes, above, ofRoutes, i, [i] + b, id);
      }
    }
    if here.entry.Group? ==> BearDistinct(here.entry.routes, above + [here.key], ofRoutes, |here.entry.routes|) {
      forall a, b, id | OwnBears(routes, above, ofRoutes, i, a, id) && OwnBears(routes, above, ofRoutes, i, b, id)
        ensures a == b
      {
        OwnBearsIs(routes, above, ofRoutes, i, a, id);
        OwnBearsIs(routes, above, ofRoutes, i, b, id);
        if 1 < |a| && 1 < |b| { assert a == [i] + a[1..] && b == [i] + b[1..]; }
      }
    }
  }

  lemma BearsSomething(routes: Routes, above: seq<string>, ofRoutes: bool, n: nat, place: seq<nat>, id: string)
    ensures Bears(routes, above, ofRoutes, n, place, id) ==> place != [] && place[0] < n
  {
  }

  /** They repeat no id exactly when no two places have one. */
  lemma {:induction false} IdsRepeatIff(routes: Routes, above: seq<string>, ofRoutes: bool, n: nat)
    requires n <= |routes|
    ensures NoDup(Ids(routes, above, ofRoutes, n)) <==> BearDistinct(routes, above, ofRoutes, n)
    decreases routes, n
  {
    hide Ids, Bears, NoDup, Slashed, OwnBears;
    NothingRepeats();
    if n == 0 {
      NoIds(routes, above, ofRoutes);
    } else {
      var m := n - 1;
      var before, own := Ids(routes, above, ofRoutes, m), OwnIdsAt(routes, above, ofRoutes, m);
      IdsStep(routes, above, ofRoutes, n);
      assert Ids(routes, above, ofRoutes, n) == before + own;
      UnusedConcat(before, own, {});
      IdsRepeatIff(routes, above, ofRoutes, m);
      OwnBearDistinctIff(routes, above, ofRoutes, m);
      if routes[m].entry.Group? {
        var sub := routes[m].entry.routes;
        IdsRepeatIff(sub, above + [routes[m].key], ofRoutes, |sub|);
      }
      BearDistinctStep(routes, above, ofRoutes, m);
    }
  }

  lemma NothingRepeats()
    ensures NoDup<string>([]) && forall x: string :: NoDup([x])
  {
  }

  /** One more entry: its own ids differ from each other and from those before. */
  lemma BearDistinctStep(routes: Routes, above: seq<string>, ofRoutes: bool, i: nat)
    requires i < |routes|
    ensures BearDistinct(routes, above, ofRoutes, i + 1) <==>
              && BearDistinct(routes, above, ofRoutes, i) && OwnBearDistinct(routes, above, ofRoutes, i)
              && forall id :: id in Ids(routes, above, ofRoutes, i) ==> id !in OwnIdsAt(routes, above, ofRoutes, i)
  {
    hide Ids, Bears, OwnIdsAt, OwnBears;
    forall place, id
      ensures Bears(routes, above, ofRoutes, i + 1, place, id) <==>
                Bears(routes, above, ofRoutes, i, place, id) || OwnBears(routes, above, ofRoutes, i, place, id)
      ensures Bears(routes, above, ofRoutes, i, place, id) ==> !OwnBears(routes, above, ofRoutes, i, place, id)
    {
      NotYet(routes, above, ofRoutes, i, place, id);
    }
    forall id
      ensures id in Ids(routes, above, ofRoutes, i) <==> exists a :: Bears(routes, above, ofRoutes, i, a, id)
      ensures id in OwnIdsAt(routes, above, ofRoutes, i) <==> exists b :: OwnBears(routes, above, ofRoutes, i, b, id)
    {
      IdsAreBorne(routes, above, ofRoutes, i, id);
      OwnIdsAreBorne(routes, above, ofRoutes, i, id);
    }
    if BearDistinct(routes, above, ofRoutes, i + 1) {
      forall id | id in Ids(routes, above, ofRoutes, i) ensures id !in OwnIdsAt(routes, above, ofRoutes, i) {
        var a :| Bears(routes, above, ofRoutes, i, a, id);
        assert Bears(routes, above, ofRoutes, i + 1, a, id);
        assert forall b :: OwnBears(routes, above, ofRoutes, i, b, id) ==> a == b;
      }
      assert BearDistinct(routes, above, ofRoutes, i);
      assert OwnBearDistinct(routes, above, ofRoutes, i);
    } else {
      var a, b, id :| Bears(routes, above, ofRoutes, i + 1, a, id) && Bears(routes, above, ofRoutes, i + 1, b, id)
                      && a != b;
      assert Bears(routes, above, ofRoutes, i, a, id) || OwnBears(routes, above, ofRoutes, i, a, id);
      assert Bears(routes, above, ofRoutes, i, b, id) || OwnBears(routes, above, ofRoutes, i, b, id);
      assert (id in Ids(routes, above, ofRoutes, i) && id in OwnIdsAt(routes, above, ofRoutes, i))
        || !BearDistinct(routes, above, ofRoutes, i) || !OwnBearDistinct(routes, above, ofRoutes, i);
    }
  }

  // ---------- When a tree registers ----------

  /** No two routes, and no two middleFns, have one id, and none has a name that is taken. */
  ghost predicate IdsAreNew(routes: Routes, ofRoutes: bool, names: set<string>) {
    && (forall a, b, id :: Bears(routes, [], ofRoutes, |routes|, a, id) && Bears(routes, [], ofRoutes, |routes|, b, id)
          ==> a == b)
    && forall place, id :: Bears(routes, [], ofRoutes, |routes|, place, id) ==> id !in names
  }

  /** A tree registers exactly when it is not empty, every entry of it is fit, and the ids of its routes and of its
      middleFns are new. */
  lemma RegistersIff(
    routes: Routes, isNumeric: string -> bool, middleNames: set<string>, routeNames: set<string>)
    ensures Registers(routes, [], 0, isNumeric, middleNames, routeNames) <==>
              && routes != [] && AllFit(routes, 0, isNumeric)
              && IdsAreNew(routes, false, middleNames) && IdsAreNew(routes, true, routeNames)
  {
    hide ShapeOk, AllFit, NoDup, Bears, Ids;
    ShapeOkIff(routes, 0, isNumeric);
    UnusedIff(routes, false, middleNames);
    UnusedIff(routes, true, routeNames);
  }

  lemma UnusedIff(routes: Routes, ofRoutes: bool, names: set<string>)
    ensures Unused(Ids(routes, [], ofRoutes, |routes|), names) <==> IdsAreNew(routes, ofRoutes, names)
  {
    hide NoDup, Bears, Ids;
    IdsRepeatIff(routes, [], ofRoutes, |routes|);
    forall id
      ensures id in Ids(routes, [], ofRoutes, |routes|) <==>
                exists place :: Bears(routes, [], ofRoutes, |routes|, place, id)
    {
      IdsAreBorne(routes, [], ofRoutes, |routes|, id);
    }
  }
}
