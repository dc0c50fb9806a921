/** Garbage collection: entries that are old and that no root leads to are deleted. */
module Gc {
  import opened Basics
  import opened Order
  import opened Types
  import opened Reachability
  import opened Selection
  import opened Purge

  datatype GcResult = GcResult(kept: Entries, deleted: seq<StoreHash>, reachable: set<StoreHash>)

  function GcSelector(cutoff: int): CacheSelector {
    CacheSelector(Filtered(FilterPredicates({}, [], {}, Some(Before(cutoff)), None, {}, {})), Exact, true)
  }

  /** Everything the roots of any system lead to. */
  ghost function Live(entries: Entries, roots: Roots): set<StoreHash>
    requires Readable(entries)
  {
    Reach(RefGraph(entries), Transitive, {}, RootSet(roots))
  }

  predicate Expired(x: Platform, cutoff: int, e: IndexEntry) {
    x.instant(e.added).Some? && x.instant(e.added).value < cutoff
  }

  ghost function Dead(x: Platform, entries: Entries, roots: Roots, cutoff: int): set<StoreHash>
    requires Readable(entries)
  {
    set h | h in entries && h !in Live(entries, roots) && Expired(x, cutoff, entries[h])
  }

  /** The selector of a collection picks the expired entries and no other. */
  lemma GcSelectorPicks(x: Platform, cutoff: int, h: StoreHash, e: IndexEntry)
    ensures InitialReason(x, GcSelector(cutoff), h, e).Some? <==> Expired(x, cutoff, e)
  {
  }

  /** Without a cascade nothing but the initial matches is picked. */
  lemma ExactReach(g: Graph, avoid: set<StoreHash>, start: set<StoreHash>)
    ensures Reach(g, Exact, avoid, start) == start
  {
    ReachIsClosed(g, Exact, avoid, start);
    ReachInsideClosed(g, Exact, avoid, start, start);
  }

  lemma GcTotal(x: Platform, entries: Entries, roots: Roots, cutoff: int)
    requires Readable(entries)
    ensures Total(x, entries, roots, GcSelector(cutoff)) == Dead(x, entries, roots, cutoff)
  {
    var sel, g := GcSelector(cutoff), RefGraph(entries);
    assert ActiveRoots(roots, sel.scope) == roots;
    var prot := Protected(g, roots, sel);
    assert prot == Live(entries, roots);
    ExactReach(g, prot, Initial(x, entries, sel, prot));
    forall h | h in entries {
      GcSelectorPicks(x, cutoff, h, entries[h]);
    }
  }

  lemma GraphOf(entries: Entries, h: StoreHash)
    requires Readable(entries) && h in entries
    ensures h in RefGraph(entries) && RefGraph(entries)[h] == Refs(entries[h]).value
    ensures forall d | d in Refs(entries[h]).value :: Edge(RefGraph(entries), Transitive, {}, h, d)
  {
  }

  /** The collector's own search, which reads references entry by entry. */
  method SearchEntries(entries: Entries, start: seq<StoreHash>, ghost all: set<StoreHash>)
    returns (reached: set<StoreHash>)
    requires Readable(entries)
    requires Closed(RefGraph(entries), Transitive, {}, all) && forall h | h in start :: h in all
    ensures reached <= all && Closed(RefGraph(entries), Transitive, {}, reached) && forall h | h in start :: h in reached
  {
    ghost var g := RefGraph(entries);
    reached := {};
    var queue := start;
    while queue != []
      invariant reached <= all && forall h | h in queue :: h in all
      invariant forall h | h in start :: h in reached || h in queue
      invariant forall a, b | a in reached && Edge(g, Transitive, {}, a, b) :: b in reached || b in queue
      decreases all - reached, |queue|
    {
      var curr, rest := queue[0], queue[1..];
      assert forall h | h in queue :: h == curr || h in rest;
      queue := rest;
      if curr !in reached {
        reached := reached + {curr};
        if curr in entries {
          var deps := Refs(entries[curr]).value;
          GraphOf(entries, curr);
          queue := PushUnmarked(queue, deps, reached);
        }
      }
    }
  }

  method EvaluateMultiArchGc(x: Platform, entries: Entries, roots: Roots, cutoff: int)
    returns (r: Result<GcResult, TypeError>)
    ensures r.Ok? <==> Readable(entries)
    ensures r.Ok? ==> r.value.reachable == Live(entries, roots)
    ensures r.Ok? ==> r.value.deleted == SortedSet(Dead(x, entries, roots, cutoff))
    ensures r.Ok? ==> r.value.kept == entries - Dead(x, entries, roots, cutoff)
  {
    var purge := EvaluateCachePurge(x, entries, roots, GcSelector(cutoff));
    if purge.Err? {
      return Err(purge.error);
    }
    GcDeletes(x, entries, roots, cutoff, purge.value.purged, purge.value.kept);
    var start := ListRoots(roots);
    ReachIsClosed(RefGraph(entries), Transitive, {}, RootSet(roots));
    assert forall h | h in start :: h in ToSet(start);
    var reached := SearchEntries(entries, start, Live(entries, roots));
    ReachInsideClosed(RefGraph(entries), Transitive, {}, RootSet(roots), reached);
    r := Ok(GcResult(purge.value.kept, purge.value.purgedHashes, reached));
  }

  lemma GcDeletes(x: Platform, entries: Entries, roots: Roots, cutoff: int, purged: Entries, kept: Entries)
    requires Readable(entries) && Picked(x, entries, roots, GcSelector(cutoff), purged, kept)
    ensures purged.Keys == Dead(x, entries, roots, cutoff)
    ensures kept == entries - Dead(x, entries, roots, cutoff)
  {
    GcTotal(x, entries, roots, cutoff);
    Meet(entries.Keys, Dead(x, entries, roots, cutoff));
    KeptEntries(x, entries, roots, GcSelector(cutoff), purged, kept);
  }

  lemma Meet(a: set<StoreHash>, b: set<StoreHash>)
    requires b <= a
    ensures a * b == b
  {
  }

  /** No collection breaks a root: what a root leads to and has an entry is kept. */
  lemma CollectionKeepsLive(x: Platform, entries: Entries, roots: Roots, cutoff: int, root: StoreHash)
    requires Readable(entries) && root in RootSet(roots)
    ensures Reach(RefGraph(entries), Transitive, {}, {root}) !! Dead(x, entries, roots, cutoff)
  {
    ReachIsMonotonic(RefGraph(entries), Transitive, {}, {root}, RootSet(roots));
  }
}
