/**
 Reachability over the reference graph of the cache index. A graph maps a hash to the hashes
 its entry references; references may form cycles and may name hashes without an entry.
 */
module Reachability {
  import opened Types

  type Graph = map<StoreHash, seq<StoreHash>>

  /** How a selection spreads: not at all, to dependents, to dependencies, or to both. */
  datatype CascadeMode = Exact | Dependents | Transitive | FullTree

  predicate Refers(g: Graph, a: StoreHash, b: StoreHash) {
    a in g && b in g[a]
  }

  /** One step of a mode from `a` to `b`; the hashes in `avoid` are never entered. */
  predicate Edge(g: Graph, mode: CascadeMode, avoid: set<StoreHash>, a: StoreHash, b: StoreHash) {
    b !in avoid &&
    match mode
    case Exact => false
    case Dependents => Refers(g, b, a)
    case Transitive => Refers(g, a, b)
    case FullTree => Refers(g, b, a) || Refers(g, a, b)
  }

  ghost predicate Closed(g: Graph, mode: CascadeMode, avoid: set<StoreHash>, s: set<StoreHash>) {
    forall a, b | a in s && Edge(g, mode, avoid, a, b) :: b in s
  }

  /** The least set that holds `start` and is closed under the mode's steps. */
  ghost predicate Least(g: Graph, mode: CascadeMode, avoid: set<StoreHash>, start: set<StoreHash>, s: set<StoreHash>) {
    && start <= s && Closed(g, mode, avoid, s)
    && forall t | start <= t && Closed(g, mode, avoid, t) :: s <= t
  }

  ghost predicate Path(g: Graph, mode: CascadeMode, avoid: set<StoreHash>, p: seq<StoreHash>) {
    p != [] && forall i | 0 < i < |p| :: Edge(g, mode, avoid, p[i - 1], p[i])
  }

  ghost predicate Connects(
    g: Graph, mode: CascadeMode, avoid: set<StoreHash>, start: set<StoreHash>, p: seq<StoreHash>, x: StoreHash)
  {
    Path(g, mode, avoid, p) && p[0] in start && p[|p| - 1] == x
  }

  ghost function Nodes(g: Graph): set<StoreHash> {
    g.Keys + set a, b | a in g && b in g[a] :: b
  }

  /** The hashes some path leads to from `start`. */
  ghost function Reach(g: Graph, mode: CascadeMode, avoid: set<StoreHash>, start: set<StoreHash>): set<StoreHash> {
    set x | x in Nodes(g) + start && exists p :: Connects(g, mode, avoid, start, p, x)
  }

  lemma ReachIsClosed(g: Graph, mode: CascadeMode, avoid: set<StoreHash>, start: set<StoreHash>)
    ensures start <= Reach(g, mode, avoid, start)
    ensures Closed(g, mode, avoid, Reach(g, mode, avoid, start))
  {
    forall x | x in start ensures x in Reach(g, mode, avoid, start) {
      assert Connects(g, mode, avoid, start, [x], x);
    }
    forall a, b | a in Reach(g, mode, avoid, start) && Edge(g, mode, avoid, a, b)
      ensures b in Reach(g, mode, avoid, start)
    {
      var p :| Connects(g, mode, avoid, start, p, a);
      assert Connects(g, mode, avoid, start, p + [b], b);
    }
  }

  lemma {:induction false} PathStaysInside(
    g: Graph, mode: CascadeMode, avoid: set<StoreHash>, t: set<StoreHash>, p: seq<StoreHash>)
    requires Path(g, mode, avoid, p) && p[0] in t && Closed(g, mode, avoid, t)
    ensures p[|p| - 1] in t
  {
    if |p| > 1 {
      var q := p[..|p| - 1];
      assert forall i | 0 <= i < |q| :: q[i] == p[i];
      PathStaysInside(g, mode, avoid, t, q);
      assert Edge(g, mode, avoid, p[|p| - 2], p[|p| - 1]);
    }
  }

  lemma ReachInsideClosed(
    g: Graph, mode: CascadeMode, avoid: set<StoreHash>, start: set<StoreHash>, t: set<StoreHash>)
    requires start <= t && Closed(g, mode, avoid, t)
    ensures Reach(g, mode, avoid, start) <= t
  {
    forall x | x in Reach(g, mode, avoid, start) ensures x in t {
      var p :| Connects(g, mode, avoid, start, p, x);
      PathStaysInside(g, mode, avoid, t, p);
    }
  }

  /** The hashes paths lead to are the least closed set, and the only one. */
  lemma ReachIsLeast(g: Graph, mode: CascadeMode, avoid: set<StoreHash>, start: set<StoreHash>, s: set<StoreHash>)
    ensures Least(g, mode, avoid, start, s) <==> s == Reach(g, mode, avoid, start)
  {
    var r := Reach(g, mode, avoid, start);
    ReachIsClosed(g, mode, avoid, start);
    forall t | start <= t && Closed(g, mode, avoid, t) ensures r <= t {
      ReachInsideClosed(g, mode, avoid, start, t);
    }
  }

  lemma ReachIsMonotonic(g: Graph, mode: CascadeMode, avoid: set<StoreHash>, a: set<StoreHash>, b: set<StoreHash>)
    requires a <= b
    ensures Reach(g, mode, avoid, a) <= Reach(g, mode, avoid, b)
  {
    ReachIsClosed(g, mode, avoid, b);
    ReachInsideClosed(g, mode, avoid, a, Reach(g, mode, avoid, b));
  }

  /** Nothing to avoid is ever reached from outside it. */
  lemma ReachAvoids(g: Graph, mode: CascadeMode, avoid: set<StoreHash>, start: set<StoreHash>)
    requires start !! avoid
    ensures Reach(g, mode, avoid, start) !! avoid
  {
    var r := Reach(g, mode, avoid, start);
    ReachIsClosed(g, mode, avoid, start);
    ReachInsideClosed(g, mode, avoid, start, r - avoid);
  }

  predicate Agree(g: Graph, g': Graph, inside: set<StoreHash>) {
    forall h | h in inside :: (h in g <==> h in g') && (h in g ==> g[h] == g'[h])
  }

  lemma ClosedAgrees(g: Graph, g': Graph, inside: set<StoreHash>, s: set<StoreHash>)
    requires Agree(g, g', inside) && s <= inside && Closed(g, Transitive, {}, s)
    ensures Closed(g', Transitive, {}, s)
  {
    assert forall a, b | a in s && Edge(g', Transitive, {}, a, b) :: Edge(g, Transitive, {}, a, b);
  }

  /** What is reached depends only on the part of the graph that is reached. */
  lemma ReachAgrees(g: Graph, g': Graph, inside: set<StoreHash>, start: set<StoreHash>)
    requires Agree(g, g', inside) && Reach(g, Transitive, {}, start) <= inside
    ensures Reach(g', Transitive, {}, start) == Reach(g, Transitive, {}, start)
  {
    var r, r' := Reach(g, Transitive, {}, start), Reach(g', Transitive, {}, start);
    ReachIsClosed(g, Transitive, {}, start);
    ClosedAgrees(g, g', inside, r);
    ReachInsideClosed(g', Transitive, {}, start, r);
    ReachIsClosed(g', Transitive, {}, start);
    ClosedAgrees(g', g, inside, r');
    ReachInsideClosed(g, Transitive, {}, start, r');
  }
}
