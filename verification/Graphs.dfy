/** Reachability, and what a depth-first walk over a table leaves behind. */
module Graphs {
  import opened Basics

  type Graph = string -> seq<string>

  ghost predicate IsPath(g: Graph, p: seq<string>) {
    p != [] && forall i :: 0 <= i < |p| - 1 ==> p[i + 1] in g(p[i])
  }

  ghost predicate Leads(g: Graph, p: seq<string>, a: string, b: string) {
    IsPath(g, p) && p[0] == a && p[|p| - 1] == b
  }

  ghost predicate Reaches(g: Graph, a: string, b: string) {
    exists p :: Leads(g, p, a, b)
  }

  ghost function From(g: Graph, a: string): iset<string> {
    iset b | Reaches(g, a, b)
  }

  lemma ReachesItself(g: Graph, a: string)
    ensures Reaches(g, a, a)
  {
    assert Leads(g, [a], a, a);
  }

  lemma ReachesThrough(g: Graph, a: string, b: string, c: string)
    requires b in g(a) && Reaches(g, b, c)
    ensures Reaches(g, a, c)
  {
    var p :| Leads(g, p, b, c);
    assert Leads(g, [a] + p, a, c);
  }

  /** What a successor reaches, its predecessor reaches. */
  lemma FromSuccessor(g: Graph, a: string, b: string)
    requires b in g(a)
    ensures From(g, b) <= From(g, a)
  {
    forall c | c in From(g, b) ensures c in From(g, a) {
      ReachesThrough(g, a, b, c);
    }
  }

  ghost predicate Closed<V>(g: Graph, table: map<string, V>) {
    forall k, s :: k in table && s in g(k) ==> s in table
  }

  lemma PathParts(g: Graph, p: seq<string>)
    requires IsPath(g, p)
    ensures p != []
    ensures |p| > 1 ==> p[1] in g(p[0]) && IsPath(g, p[1..])
  {
    if |p| > 1 { assert p[0 + 1] in g(p[0]); }
  }

  lemma {:induction false} ClosedHoldsPath<V>(g: Graph, table: map<string, V>, p: seq<string>)
    requires Closed(g, table) && IsPath(g, p) && p[0] in table
    ensures p[|p| - 1] in table
  {
    if |p| > 1 {
      assert p[1..][0] in g(p[0]);
      ClosedHoldsPath(g, table, p[1..]);
    }
  }

  /** The table grew, by entries copied from the registry whose names are among `from`. */
  ghost predicate Added<V(!new)>(
    from: iset<string>, registry: map<string, V>, was: map<string, V>, now: map<string, V>)
  {
    && (forall k :: k in was ==> k in now && now[k] == was[k])
    && (forall k :: k in now && k !in was ==> k in from && k in registry && now[k] == registry[k])
  }

  /** Everything that was added has all its successors in the table. */
  ghost predicate Settled<V(!new)>(g: Graph, was: map<string, V>, now: map<string, V>) {
    forall k, s :: k in now && k !in was && s in g(k) ==> s in now
  }

  lemma AddedMore<V(!new)>(
    from: iset<string>, more: iset<string>, registry: map<string, V>, was: map<string, V>, mid: map<string, V>,
    now: map<string, V>)
    requires Added(more, registry, was, mid) && Added(from, registry, mid, now) && from <= more
    ensures Added(more, registry, was, now)
    ensures was.Keys <= mid.Keys <= now.Keys
  {
  }

  lemma SettledMore<V(!new)>(g: Graph, was: map<string, V>, mid: map<string, V>, now: map<string, V>)
    requires Settled(g, was, mid) && Settled(g, mid, now) && mid.Keys <= now.Keys
    ensures Settled(g, was, now)
  {
  }

  lemma SettledNode<V(!new)>(g: Graph, was: map<string, V>, x: string, v: V, now: map<string, V>)
    requires Settled(g, was[x := v], now) && forall s :: s in g(x) ==> s in now
    ensures Settled(g, was, now)
  {
  }

  lemma AddedNode<V(!new)>(from: iset<string>, registry: map<string, V>, was: map<string, V>, x: string)
    requires x !in was && x in from && x in registry
    ensures Added(from, registry, was, was[x := registry[x]])
    ensures Settled(x => [], was, was[x := registry[x]])
  {
  }

  /** A table closed under successors holds everything its entries reach. */
  lemma ClosedHolds<V>(g: Graph, table: map<string, V>, a: string, b: string)
    requires Closed(g, table) && a in table && Reaches(g, a, b)
    ensures b in table
  {
    var path :| Leads(g, path, a, b);
    ClosedHoldsPath(g, table, path);
  }
}
