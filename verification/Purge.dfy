/** Purging: pruning of GC roots that no longer hold, and grouping of the freed blobs. */
module Purge {
  import opened Basics
  import opened Order
  import opened Types
  import opened Reachability
  import opened Selection
  import opened SelectionLaws

  datatype PurgedBlob = PurgedBlob(digest: string, size: nat)

  datatype PurgeResult = PurgeResult(
    kept: Entries, purged: Entries, purgedHashes: seq<StoreHash>, blobs: seq<PurgedBlob>,
    roots: Roots, freedBytes: nat, reasons: Reasons)

  // --- Roots -----------------------------------------------------------------------------------

  /** Everything `root` leads to through the references of the kept entries is kept. */
  ghost predicate Sound(kept: Entries, root: StoreHash)
    requires Readable(kept)
  {
    Reach(RefGraph(kept), Transitive, {}, {root}) <= kept.Keys
  }

  ghost function KeepSound(kept: Entries, roots: seq<StoreHash>): seq<StoreHash>
    requires Readable(kept)
  {
    if roots == [] then []
    else IfSound(kept, roots[0]) + KeepSound(kept, roots[1..])
  }

  /** The sound roots of each system in their order; a system left without roots goes away. */
  ghost function Pruned(kept: Entries, roots: Roots): Roots
    requires Readable(kept)
  {
    map s | s in roots && KeepSound(kept, roots[s]) != [] :: KeepSound(kept, roots[s])
  }

  /** A root holds when all it leads to, through any entry, is there and not purged. */
  lemma SoundIsComplete(entries: Entries, purged: set<StoreHash>, root: StoreHash)
    requires Readable(entries)
    ensures Sound(entries - purged, root) <==>
            Reach(RefGraph(entries), Transitive, {}, {root}) <= entries.Keys - purged
  {
    var full, g, inside := RefGraph(entries), RefGraph(entries - purged), entries.Keys - purged;
    assert Agree(full, g, inside) && Agree(g, full, inside);
    if Reach(g, Transitive, {}, {root}) <= inside {
      ReachAgrees(g, full, inside, {root});
    } else if Reach(full, Transitive, {}, {root}) <= inside {
      ReachAgrees(full, g, inside, {root});
    }
  }

  /** Marks the dependencies of one hash; stops at the first that is missing or purged. */
  method VisitDeps(
    deps: seq<StoreHash>, present: set<StoreHash>, purged: set<StoreHash>, visited: set<StoreHash>, queue: seq<StoreHash>)
    returns (ok: bool, visited': set<StoreHash>, queue': seq<StoreHash>)
    ensures ok <==> forall d | d in deps :: d in present - purged
    ensures ok ==> forall h :: h in visited' <==> h in visited || h in deps
    ensures ok ==> forall h :: h in queue' <==> h in queue || h in visited' - visited
    ensures ok && visited' == visited ==> queue' == queue
  {
    ok, visited', queue' := true, visited, queue;
    for i := 0 to |deps|
      invariant ok && forall d | d in deps[..i] :: d in present - purged
      invariant forall h :: h in visited' <==> h in visited || h in deps[..i]
      invariant forall h :: h in queue' <==> h in queue || h in visited' - visited
      invariant visited' == visited ==> queue' == queue
    {
      var d := deps[i];
      TakeNext(deps, i);
      if d in purged || d !in present {
        assert d in deps;
        ok := false;
        return;
      }
      if d !in visited' {
        visited', queue' := visited' + {d}, queue' + [d];
      }
    }
    TakeAll(deps);
  }

  /** The early-exit search below one root. */
  method Search(
    g: Graph, present: set<StoreHash>, purged: set<StoreHash>, root: StoreHash, ghost all: set<StoreHash>)
    returns (sound: bool)
    requires g.Keys == present - purged && root !in purged
    requires root in all && Closed(g, Transitive, {}, all)
    ensures !sound ==> !(all <= present - purged)
    ensures sound ==> exists s: set<StoreHash> :: root in s && s <= present - purged && Closed(g, Transitive, {}, s)
  {
    var visited, queue := {root}, [root];
    while queue != []
      invariant root in visited && visited <= all && forall h | h in queue :: h in visited
      invariant forall h | h in visited && h != root :: h in present - purged
      invariant root !in queue ==> root in present
      invariant forall a, b | a in visited && a !in queue && Edge(g, Transitive, {}, a, b) :: b in visited
      decreases all - visited, |queue|
    {
      var curr, rest := queue[0], queue[1..];
      assert forall h :: h in queue <==> h == curr || h in rest;
      queue := rest;
      ghost var before := visited;
      if curr in g {
        assert forall d | d in g[curr] :: Edge(g, Transitive, {}, curr, d);
        var ok;
        ok, visited, queue := VisitDeps(g[curr], present, purged, visited, queue);
        if !ok {
          return false;
        }
      } else if curr !in present {
        return false;
      }
      if visited != before {
        LessIsLeft(all, before, visited);
      }
    }
    sound := true;
  }

  /** A closed set inside what stays bounds everything a root leads to. */
  lemma ClosedSetDecides(g: Graph, inside: set<StoreHash>, root: StoreHash)
    requires exists s: set<StoreHash> :: root in s && s <= inside && Closed(g, Transitive, {}, s)
    ensures Reach(g, Transitive, {}, {root}) <= inside
  {
    var s: set<StoreHash> :| root in s && s <= inside && Closed(g, Transitive, {}, s);
    ReachInsideClosed(g, Transitive, {}, {root}, s);
  }

  method CheckRoot(present: set<StoreHash>, purged: set<StoreHash>, g: Graph, root: StoreHash, ghost kept: Entries)
    returns (sound: bool)
    requires Readable(kept) && g == RefGraph(kept) && kept.Keys == present - purged
    ensures sound <==> Sound(kept, root)
  {
    ReachIsClosed(g, Transitive, {}, {root});
    if root in purged {
      return false;
    }
    sound := Search(g, present, purged, root, Reach(g, Transitive, {}, {root}));
    if sound {
      ClosedSetDecides(g, present - purged, root);
    }
  }

  ghost function IfSound(kept: Entries, root: StoreHash): seq<StoreHash>
    requires Readable(kept)
  {
    if Sound(kept, root) then [root] else []
  }

  lemma {:induction false} KeepSoundAppends(kept: Entries, roots: seq<StoreHash>, root: StoreHash)
    requires Readable(kept)
    ensures KeepSound(kept, roots + [root]) == KeepSound(kept, roots) + IfSound(kept, root)
  {
    if roots == [] {
      assert roots + [root] == [root];
    } else {
      assert (roots + [root])[1..] == roots[1..] + [root];
      KeepSoundAppends(kept, roots[1..], root);
      Assoc(IfSound(kept, roots[0]), KeepSound(kept, roots[1..]), IfSound(kept, root));
    }
  }

  method PruneSystem(
    present: set<StoreHash>, purged: set<StoreHash>, g: Graph, roots: seq<StoreHash>, ghost kept: Entries)
    returns (valid: seq<StoreHash>)
    requires Readable(kept) && g == RefGraph(kept) && kept.Keys == present - purged
    ensures valid == KeepSound(kept, roots)
  {
    valid := [];
    for i := 0 to |roots|
      invariant valid == KeepSound(kept, roots[..i])
    {
      TakeNext(roots, i);
      KeepSoundAppends(kept, roots[..i], roots[i]);
      var sound := CheckRoot(present, purged, g, roots[i], kept);
      if sound {
        valid := valid + [roots[i]];
      }
    }
    TakeAll(roots);
  }

  /** The reference graph without the purged entries, or a broken reference. */
  method BuildKeptGraph(entries: Entries, purged: set<StoreHash>) returns (r: Result<Graph, TypeError>)
    ensures r.Ok? <==> Readable(entries - purged)
    ensures r.Ok? ==> r.value == RefGraph(entries - purged)
  {
    var g: Graph := map[];
    var rest := entries.Keys;
    while rest != {}
      invariant rest <= entries.Keys && g.Keys == entries.Keys - purged - rest
      invariant forall h | h in g :: Refs(entries[h]) == Ok(g[h])
      decreases rest
    {
      var h :| h in rest;
      if h !in purged {
        var found := Refs(entries[h]);
        if found.Err? {
          assert h in entries - purged;
          return Err(found.error);
        }
        g := g[h := found.value];
      }
      rest := rest - {h};
    }
    r := Ok(g);
  }

  method PruneBrokenGcRoots(entries: Entries, roots: Roots, purged: set<StoreHash>)
    returns (r: Result<Roots, TypeError>)
    ensures r.Ok? <==> Readable(entries - purged)
    ensures r.Ok? ==> r.value == Pruned(entries - purged, roots)
  {
    var built := BuildKeptGraph(entries, purged);
    if built.Err? {
      return Err(built.error);
    }
    ghost var kept := entries - purged;
    var updated: Roots := map[];
    var rest := roots.Keys;
    while rest != {}
      invariant rest <= roots.Keys && updated.Keys <= roots.Keys - rest
      invariant forall s | s in roots && s !in rest :: s in updated <==> KeepSound(kept, roots[s]) != []
      invariant forall s | s in updated :: updated[s] == KeepSound(kept, roots[s])
      decreases rest
    {
      var s :| s in rest;
      var valid := PruneSystem(entries.Keys, purged, built.value, roots[s], kept);
      if valid != [] {
        updated := updated[s := valid];
      }
      rest := rest - {s};
    }
    r := Ok(updated);
  }

  // --- Blobs -----------------------------------------------------------------------------------

  /** Each digest of the entries once, with the largest size recorded for it. */
  ghost predicate Groups(entries: Entries, sizes: map<string, nat>) {
    && (forall h | h in entries :: entries[h].narDigest in sizes && entries[h].narSize <= sizes[entries[h].narDigest])
    && (forall d | d in sizes :: exists h | h in entries :: entries[h].narDigest == d && entries[h].narSize == sizes[d])
  }

  function Max(a: nat, b: nat): nat {
    if a < b then b else a
  }

  lemma GroupsGrow(m: Entries, h: StoreHash, e: IndexEntry, sizes: map<string, nat>)
    requires Groups(m, sizes) && h !in m
    ensures Groups(m[h := e],
                   sizes[e.narDigest := if e.narDigest in sizes then Max(sizes[e.narDigest], e.narSize) else e.narSize])
  {
    var d := e.narDigest;
    var sizes' := sizes[d := if d in sizes then Max(sizes[d], e.narSize) else e.narSize];
    var m' := m[h := e];
    forall k | k in sizes' ensures exists i | i in m' :: m'[i].narDigest == k && m'[i].narSize == sizes'[k] {
      if k == d && (d !in sizes || sizes[d] < e.narSize) {
        assert m'[h].narDigest == k && m'[h].narSize == sizes'[k];
      } else {
        var i :| i in m && m[i].narDigest == k && m[i].narSize == sizes[k];
        assert m'[i].narDigest == k && m'[i].narSize == sizes'[k];
      }
    }
  }

  method GroupBlobs(entries: Entries) returns (sizes: map<string, nat>)
    ensures Groups(entries, sizes)
  {
    sizes := map[];
    var rest := entries.Keys;
    while rest != {}
      invariant rest <= entries.Keys && Groups(entries - rest, sizes)
      decreases rest
    {
      var h :| h in rest;
      var e := entries[h];
      GroupsGrow(entries - rest, h, e, sizes);
      assert (entries - rest)[h := e] == entries - (rest - {h});
      sizes := sizes[e.narDigest := if e.narDigest in sizes then Max(sizes[e.narDigest], e.narSize) else e.narSize];
      rest := rest - {h};
    }
    assert entries - {} == entries;
  }

  /** The sizes as a list in strictly ascending order of the digests. */
  ghost predicate Tabulated(sizes: map<string, nat>, blobs: seq<PurgedBlob>) {
    && (forall i, j | 0 <= i < j < |blobs| :: Less(blobs[i].digest, blobs[j].digest))
    && (forall i | 0 <= i < |blobs| :: blobs[i].digest in sizes && blobs[i].size == sizes[blobs[i].digest])
    && (forall d | d in sizes :: exists i | 0 <= i < |blobs| :: blobs[i].digest == d)
  }

  ghost predicate Listed(entries: Entries, blobs: seq<PurgedBlob>) {
    exists sizes: map<string, nat> :: Groups(entries, sizes) && Tabulated(sizes, blobs)
  }

  method ListBlobs(sizes: map<string, nat>) returns (blobs: seq<PurgedBlob>)
    ensures Tabulated(sizes, blobs)
  {
    var keys := Listing(sizes.Keys);
    assert forall d :: d in keys <==> d in ToSet(keys);
    SortSorts(keys);
    keys := Sort(keys);
    blobs := [];
    for i := 0 to |keys|
      invariant |blobs| == i && forall j | 0 <= j < i :: blobs[j] == PurgedBlob(keys[j], sizes[keys[j]])
    {
      blobs := blobs + [PurgedBlob(keys[i], sizes[keys[i]])];
    }
    forall d | d in sizes ensures exists i | 0 <= i < |blobs| :: blobs[i].digest == d {
      var i :| 0 <= i < |keys| && keys[i] == d;
      assert blobs[i].digest == d;
    }
  }

  // --- Purge -----------------------------------------------------------------------------------

  ghost predicate PurgeAnswer(x: Platform, entries: Entries, roots: Roots, sel: CacheSelector, r: PurgeResult)
    requires Readable(entries)
  {
    && Picked(x, entries, roots, sel, r.purged, r.kept)
    && r.purgedHashes == SortedSet(r.purged.Keys)
    && ReasonsHold(x, entries, roots, sel, r.reasons)
    && r.freedBytes == Wrap(Bytes(r.purged))
    && Readable(r.kept) && r.roots == Pruned(r.kept, roots)
    && Listed(r.purged, r.blobs)
  }

  lemma KeptEntries(
    x: Platform, entries: Entries, roots: Roots, sel: CacheSelector, matched: Entries, unmatched: Entries)
    requires Readable(entries) && Picked(x, entries, roots, sel, matched, unmatched)
    ensures entries - matched.Keys == unmatched && Readable(unmatched)
    ensures matched.Keys == entries.Keys * Total(x, entries, roots, sel)
  {
  }

  method EvaluateCachePurge(x: Platform, entries: Entries, roots: Roots, sel: CacheSelector)
    returns (r: Result<PurgeResult, TypeError>)
    ensures r.Ok? <==> Readable(entries)
    ensures r.Ok? ==> PurgeAnswer(x, entries, roots, sel, r.value)
  {
    var answer := EvaluateCacheQuery(x, entries, roots, sel);
    if answer.Err? {
      return Err(answer.error);
    }
    var q := answer.value;
    KeptEntries(x, entries, roots, sel, q.matched, q.unmatched);
    var pruned := PruneBrokenGcRoots(entries, roots, q.matched.Keys);
    var sizes := GroupBlobs(q.matched);
    var blobs := ListBlobs(sizes);
    r := Ok(PurgeResult(q.unmatched, q.matched, q.finalHashes, blobs, pruned.value, q.matchedBytes, q.reasons));
  }

  // --- Laws ------------------------------------------------------------------------------------

  lemma {:induction false} KeepSoundTwice(kept: Entries, roots: seq<StoreHash>)
    requires Readable(kept)
    ensures KeepSound(kept, KeepSound(kept, roots)) == KeepSound(kept, roots)
  {
    if roots != [] {
      KeepSoundTwice(kept, roots[1..]);
      if Sound(kept, roots[0]) {
        var tail := KeepSound(kept, roots[1..]);
        assert ([roots[0]] + tail)[1..] == tail && ([roots[0]] + tail)[0] == roots[0];
        assert KeepSound(kept, [roots[0]] + tail) == [roots[0]] + tail;
      } else {
        assert KeepSound(kept, roots) == [] + KeepSound(kept, roots[1..]) == KeepSound(kept, roots[1..]);
      }
    }
  }

  /** Pruning once more over the kept entries removes nothing. */
  lemma PruningIsIdempotent(kept: Entries, roots: Roots)
    requires Readable(kept)
    ensures Pruned(kept, Pruned(kept, roots)) == Pruned(kept, roots)
  {
    forall s | s in Pruned(kept, roots)
      ensures KeepSound(kept, Pruned(kept, roots)[s]) == Pruned(kept, roots)[s]
    {
      KeepSoundTwice(kept, roots[s]);
    }
  }

  lemma {:induction false} KeepSoundMembers(kept: Entries, roots: seq<StoreHash>, h: StoreHash)
    requires Readable(kept)
    ensures h in KeepSound(kept, roots) <==> h in roots && Sound(kept, h)
  {
    if roots != [] {
      KeepSoundMembers(kept, roots[1..], h);
      assert h in roots <==> h == roots[0] || h in roots[1..];
    }
  }

  /** A root survives exactly when all it leads to is present and not purged. */
  lemma RootSurvives(
    x: Platform, entries: Entries, roots: Roots, sel: CacheSelector, r: PurgeResult, s: SystemArch, root: StoreHash)
    requires Readable(entries) && PurgeAnswer(x, entries, roots, sel, r) && s in roots && root in roots[s]
    ensures (s in r.roots && root in r.roots[s]) <==>
            Reach(RefGraph(entries), Transitive, {}, {root}) <= entries.Keys - r.purged.Keys
  {
    KeptEntries(x, entries, roots, sel, r.purged, r.kept);
    SoundIsComplete(entries, r.purged.Keys, root);
    KeepSoundMembers(r.kept, roots[s], root);
  }

  /** With protection on, a root of a targeted system falls only if it was incomplete before. */
  lemma ProtectionBreaksNoRoot(
    x: Platform, entries: Entries, roots: Roots, sel: CacheSelector, r: PurgeResult, s: SystemArch, root: StoreHash)
    requires Readable(entries) && PurgeAnswer(x, entries, roots, sel, r)
    requires sel.protectGcRoots && s in roots && root in roots[s] && Targets(sel.scope, s)
    ensures (s in r.roots && root in r.roots[s]) <==> Reach(RefGraph(entries), Transitive, {}, {root}) <= entries.Keys
  {
    RootSurvives(x, entries, roots, sel, r, s, root);
    TargetedIsProtected(entries, roots, sel, s, root);
    ProtectedIsKept(x, entries, roots, sel);
    KeptEntries(x, entries, roots, sel, r.purged, r.kept);
  }

  lemma TargetedIsProtected(entries: Entries, roots: Roots, sel: CacheSelector, s: SystemArch, root: StoreHash)
    requires Readable(entries) && sel.protectGcRoots && s in roots && root in roots[s] && Targets(sel.scope, s)
    ensures Reach(RefGraph(entries), Transitive, {}, {root}) <= Protected(RefGraph(entries), roots, sel)
  {
    ActiveIsTargeted(roots, sel.scope, s);
    ReachIsMonotonic(RefGraph(entries), Transitive, {}, {root}, RootSet(ActiveRoots(roots, sel.scope)));
  }

  ghost function BlobBytes(blobs: seq<PurgedBlob>): nat {
    if blobs == [] then 0 else blobs[0].size + BlobBytes(blobs[1..])
  }

  /** The report's `saturating_add` fold over the blobs. */
  ghost function SaturatingBytes(blobs: seq<PurgedBlob>): nat {
    if blobs == [] then 0
    else SaturatingAdd(SaturatingBytes(blobs[..|blobs| - 1]), blobs[|blobs| - 1].size)
  }

  lemma {:induction false} BytesAreMonotonic(m: Entries, s: set<StoreHash>)
    ensures Bytes(m - s) <= Bytes(m)
  {
    BytesSplit(m, s);
  }

  /** Blobs with different digests are paid for by different entries. */
  lemma {:induction false} BlobsAreCovered(m: Entries, blobs: seq<PurgedBlob>)
    requires forall i, j | 0 <= i < j < |blobs| :: blobs[i].digest != blobs[j].digest
    requires forall b | b in blobs :: exists h | h in m :: m[h].narDigest == b.digest && m[h].narSize == b.size
    ensures BlobBytes(blobs) <= Bytes(m)
    decreases |blobs|
  {
    if blobs != [] {
      var b := blobs[0];
      assert b in blobs;
      var h :| h in m && m[h].narDigest == b.digest && m[h].narSize == b.size;
      var same := set k | k in m && m[k].narDigest == b.digest;
      var m' := m - {h} - same;
      forall c | c in blobs[1..] ensures exists k | k in m' :: m'[k].narDigest == c.digest && m'[k].narSize == c.size {
        var k :| k in m && m[k].narDigest == c.digest && m[k].narSize == c.size;
        assert k in m' && m'[k] == m[k];
      }
      BlobsAreCovered(m', blobs[1..]);
      BytesAreMonotonic(m - {h}, same);
      BytesOfOne(m, h);
    }
  }

  lemma {:induction false} SaturatingIsExact(blobs: seq<PurgedBlob>)
    requires BlobBytes(blobs) < U64_LIMIT
    ensures SaturatingBytes(blobs) == BlobBytes(blobs)
  {
    if blobs != [] {
      var init, last := blobs[..|blobs| - 1], blobs[|blobs| - 1];
      assert blobs == init + [last];
      BlobBytesAppend(init, last);
      SaturatingIsExact(init);
    }
  }

  lemma {:induction false} BlobBytesAppend(blobs: seq<PurgedBlob>, b: PurgedBlob)
    ensures BlobBytes(blobs + [b]) == BlobBytes(blobs) + b.size
  {
    if blobs == [] {
      assert blobs + [b] == [b];
    } else {
      assert (blobs + [b])[1..] == blobs[1..] + [b];
      BlobBytesAppend(blobs[1..], b);
    }
  }

  /** Every entry has one blob, at least as large; every blob has an entry of its size. */
  lemma BlobsAreGrouped(m: Entries, blobs: seq<PurgedBlob>)
    requires Listed(m, blobs)
    ensures forall i, j | 0 <= i < j < |blobs| :: blobs[i].digest != blobs[j].digest && Less(blobs[i].digest, blobs[j].digest)
    ensures forall h | h in m :: exists b | b in blobs :: b.digest == m[h].narDigest && m[h].narSize <= b.size
    ensures forall b | b in blobs :: exists h | h in m :: m[h].narDigest == b.digest && m[h].narSize == b.size
  {
    var sizes: map<string, nat> :| Groups(m, sizes) && Tabulated(sizes, blobs);
    forall i, j | 0 <= i < j < |blobs| ensures blobs[i].digest != blobs[j].digest {
      LessIsIrreflexive(blobs[i].digest);
    }
    forall h | h in m ensures exists b | b in blobs :: b.digest == m[h].narDigest && m[h].narSize <= b.size {
      var i :| 0 <= i < |blobs| && blobs[i].digest == m[h].narDigest;
      assert blobs[i] in blobs;
    }
  }

  /** The reported blob bytes never exceed the freed bytes when those fit in a `u64`. */
  lemma BlobBytesAreFreedBytes(m: Entries, blobs: seq<PurgedBlob>, freed: nat)
    requires Listed(m, blobs) && freed == Wrap(Bytes(m))
    ensures BlobBytes(blobs) <= Bytes(m)
    ensures Bytes(m) < U64_LIMIT ==> SaturatingBytes(blobs) == BlobBytes(blobs) <= freed
  {
    assert BlobBytes(blobs) <= Bytes(m) by {
      BlobsAreGrouped(m, blobs);
      BlobsAreCovered(m, blobs);
    }
    if Bytes(m) < U64_LIMIT {
      SaturatingIsExact(blobs);
    }
  }
}
