/**
 Whether a purge over several architectures leaves an entry pointing to a purged one. The
 selection sees all entries merged into one map, while every index keeps its own entries.
 */
module ReferenceSafety {
  import opened Basics
  import opened Text
  import opened Types
  import opened Reachability
  import opened Selection
  import SelectionLaws
  import opened Archive
  import opened Samples

  predicate References(e: IndexEntry, g: StoreHash) {
    Refs(e).Ok? && g in Refs(e).value
  }

  /** No entry of an index references a hash that is gone. */
  ghost predicate NoneDangles(left: Entries, gone: set<StoreHash>) {
    forall k, g | k in left && References(left[k], g) :: g !in gone
  }

  /** After the purge of a selector no entry left in any index references a purged one. */
  ghost predicate LeavesNoneDangling(x: Platform, bySystem: Contents, all: Entries, roots: Roots, sel: CacheSelector)
    requires Readable(all)
  {
    var gone := Restrict(all, Total(x, all, roots, sel)).Keys;
    forall s | s in bySystem :: NoneDangles(bySystem[s] - gone, gone)
  }

  predicate SpreadsToDependents(sel: CacheSelector) {
    sel.mode == Dependents || sel.mode == FullTree
  }

  /** Following referrers in the merged entries leads from every reference of every index back to its entry. */
  ghost predicate TracedBack(bySystem: Contents, all: Entries)
    requires Readable(all)
  {
    forall s, k, g | s in bySystem && k in bySystem[s] && References(bySystem[s][k], g) && g in all ::
      k in Reach(RefGraph(all), Dependents, {}, {g})
  }

  // --- Every selector is safe where references are traced back ------------------------------------

  /** What a selection spreads to takes in all that leads back from any of its hashes. */
  lemma TotalTakesReferrers(x: Platform, all: Entries, roots: Roots, sel: CacheSelector, g: StoreHash)
    requires Readable(all) && SpreadsToDependents(sel) && g in Total(x, all, roots, sel)
    ensures Reach(RefGraph(all), Dependents, {}, {g}) <= Total(x, all, roots, sel)
  {
    var graph := RefGraph(all);
    var prot := Protected(graph, roots, sel);
    var total := Total(x, all, roots, sel);
    SelectionLaws.ProtectedIsClosed(graph, roots, sel);
    forall a, b | a in total && Edge(graph, Dependents, {}, a, b) ensures b in total {
      SelectionLaws.ReferrersAreTaken(graph, sel.mode, prot, Initial(x, all, sel, prot), b, a);
    }
    ReachInsideClosed(graph, Dependents, {}, {g}, total);
  }

  lemma TracedLeavesNone(m: Entries, gone: set<StoreHash>)
    requires forall k, g | k in m && References(m[k], g) && g in gone :: k in gone
    ensures NoneDangles(m - gone, gone)
  {
    var left := m - gone;
    forall k, g | k in left && References(left[k], g) ensures g !in gone {
      assert k in m && References(m[k], g);
    }
  }

  lemma ReferrersAreGone(
    x: Platform, bySystem: Contents, all: Entries, roots: Roots, sel: CacheSelector, s: SystemArch, k: StoreHash, g: StoreHash)
    requires Merged(bySystem, all) && Readable(all) && TracedBack(bySystem, all) && SpreadsToDependents(sel)
    requires s in bySystem && k in bySystem[s] && References(bySystem[s][k], g) && g in all
    requires g in Total(x, all, roots, sel)
    ensures k in all && k in Total(x, all, roots, sel)
  {
    TotalTakesReferrers(x, all, roots, sel, g);
  }

  lemma TracedIsSafe(x: Platform, bySystem: Contents, all: Entries, roots: Roots, sel: CacheSelector)
    requires Merged(bySystem, all) && Readable(all) && TracedBack(bySystem, all) && SpreadsToDependents(sel)
    ensures LeavesNoneDangling(x, bySystem, all, roots, sel)
  {
    var gone := Restrict(all, Total(x, all, roots, sel)).Keys;
    forall s | s in bySystem ensures NoneDangles(bySystem[s] - gone, gone) {
      forall k, g | k in bySystem[s] && References(bySystem[s][k], g) && g in gone ensures k in gone {
        ReferrersAreGone(x, bySystem, all, roots, sel, s, k, g);
      }
      TracedLeavesNone(bySystem[s], gone);
    }
  }

  // --- One hash at a time shows where they are not ------------------------------------------------

  /** The selector that picks one hash and spreads to dependents. */
  function PickOne(h: StoreHash): CacheSelector {
    CacheSelector(Filtered(FilterPredicates({h}, [], {}, None, None, {}, {})), Dependents, false)
  }

  lemma PickOneIsInitial(x: Platform, all: Entries, g: StoreHash)
    requires g in all
    ensures Initial(x, all, PickOne(g), {}) == {g}
  {
    forall h | h in all ensures InitialReason(x, PickOne(g), h, all[h]).Some? <==> h == g {
      assert HasItemFilters(PickOne(g).scope.predicates);
    }
  }

  lemma PickOneTakesReferrers(x: Platform, all: Entries, roots: Roots, g: StoreHash)
    requires Readable(all) && g in all
    ensures Total(x, all, roots, PickOne(g)) == Reach(RefGraph(all), Dependents, {}, {g})
    ensures g in Total(x, all, roots, PickOne(g))
  {
    PickOneIsInitial(x, all, g);
    ReachIsClosed(RefGraph(all), Dependents, {}, {g});
  }

  lemma SafeIsTraced(x: Platform, bySystem: Contents, all: Entries, s: SystemArch, k: StoreHash, g: StoreHash)
    requires Merged(bySystem, all) && Readable(all) && LeavesNoneDangling(x, bySystem, all, map[], PickOne(g))
    requires s in bySystem && k in bySystem[s] && References(bySystem[s][k], g) && g in all
    ensures k in Reach(RefGraph(all), Dependents, {}, {g})
  {
    var total := Total(x, all, map[], PickOne(g));
    PickOneTakesReferrers(x, all, map[], g);
    var gone := Restrict(all, total).Keys;
    if k !in gone { LeftDangling(bySystem[s], gone, k, g); }
  }

  lemma LeftDangling(m: Entries, gone: set<StoreHash>, k: StoreHash, g: StoreHash)
    requires k in m && k !in gone && References(m[k], g) && g in gone
    ensures !NoneDangles(m - gone, gone)
  {
    var left := m - gone;
    assert k in left && References(left[k], g);
  }

  /** Purging is safe for every selector that spreads to dependents and for all GC roots. */
  ghost predicate AlwaysSafe(x: Platform, bySystem: Contents, all: Entries)
    requires Readable(all)
  {
    forall roots: Roots, sel: CacheSelector | SpreadsToDependents(sel) :: LeavesNoneDangling(x, bySystem, all, roots, sel)
  }

  lemma TracedIsAlwaysSafe(x: Platform, bySystem: Contents, all: Entries)
    requires Merged(bySystem, all) && Readable(all) && TracedBack(bySystem, all)
    ensures AlwaysSafe(x, bySystem, all)
  {
    forall roots: Roots, sel: CacheSelector | SpreadsToDependents(sel)
      ensures LeavesNoneDangling(x, bySystem, all, roots, sel)
    {
      TracedIsSafe(x, bySystem, all, roots, sel);
    }
  }

  lemma SafeForOne(x: Platform, bySystem: Contents, all: Entries, g: StoreHash)
    requires Readable(all) && AlwaysSafe(x, bySystem, all)
    ensures LeavesNoneDangling(x, bySystem, all, map[], PickOne(g))
  {
    assert SpreadsToDependents(PickOne(g));
  }

  lemma AlwaysSafeIsTraced(x: Platform, bySystem: Contents, all: Entries)
    requires Merged(bySystem, all) && Readable(all) && AlwaysSafe(x, bySystem, all)
    ensures TracedBack(bySystem, all)
  {
    forall s, k, g | s in bySystem && k in bySystem[s] && References(bySystem[s][k], g) && g in all
      ensures k in Reach(RefGraph(all), Dependents, {}, {g})
    {
      SafeForOne(x, bySystem, all, g);
      SafeIsTraced(x, bySystem, all, s, k, g);
    }
  }

  /** That is so exactly when every reference of every index is traced back in the merged entries. */
  lemma ReferenceSafetyIsExact(x: Platform, bySystem: Contents, all: Entries)
    requires Merged(bySystem, all) && Readable(all)
    ensures AlwaysSafe(x, bySystem, all) <==> TracedBack(bySystem, all)
  {
    if TracedBack(bySystem, all) { TracedIsAlwaysSafe(x, bySystem, all); }
    if AlwaysSafe(x, bySystem, all) { AlwaysSafeIsTraced(x, bySystem, all); }
  }

  // --- Two instances -----------------------------------------------------------------------------

  /** Architectures that share a hash give it the same references. */
  ghost predicate SharedAlike(bySystem: Contents) {
    forall s, t, k | s in bySystem && t in bySystem && k in bySystem[s] && k in bySystem[t] ::
      Refs(bySystem[s][k]) == Refs(bySystem[t][k])
  }

  /** Where shared hashes have the same references everywhere, every reference is traced back. */
  lemma AlikeIsTraced(bySystem: Contents, all: Entries)
    requires Merged(bySystem, all) && Readable(all) && SharedAlike(bySystem)
    ensures TracedBack(bySystem, all)
  {
    forall s, k, g | s in bySystem && k in bySystem[s] && References(bySystem[s][k], g) && g in all
      ensures k in Reach(RefGraph(all), Dependents, {}, {g})
    {
      var t :| t in bySystem && k in bySystem[t] && all[k] == bySystem[t][k];
      assert Edge(RefGraph(all), Dependents, {}, g, k);
      ReachIsClosed(RefGraph(all), Dependents, {}, {g});
    }
  }

  /** The sample hash that is referenced, and the one that two architectures share. */
  function Shared(): StoreHash {
    SampleHash('a')
  }

  function Referenced(): StoreHash {
    SampleHash('b')
  }

  function Linking(s: SystemArch, added: string): Entries {
    map[Shared() := Sample(s, Shared(), [Basename(Referenced())], added), Referenced() := Sample(s, Referenced(), [], added)]
  }

  function Lone(t: SystemArch, added: string): Entries {
    map[Shared() := Sample(t, Shared(), [], added)]
  }

  lemma SampleHashesDiffer()
    ensures IsStoreHash(Shared()) && IsStoreHash(Referenced()) && Shared() != Referenced()
  {
    SampleHashIsHash('a');
    SampleHashIsHash('b');
    assert Shared()[0] == 'a' && Referenced()[0] == 'b';
  }

  lemma SampleReferences(s: SystemArch, h: StoreHash, g: StoreHash, added: string)
    requires IsStoreHash(g)
    ensures Refs(Sample(s, h, [Basename(g)], added)) == Ok([g]) && Refs(Sample(s, h, [], added)) == Ok([])
  {
    ReferenceParses(g);
    var one := ReferenceHashes([Basename(g)]);
    assert one.value == [g];
  }

  lemma MergesTwo(s: SystemArch, t: SystemArch, k: StoreHash, g: StoreHash, link: IndexEntry, lone: IndexEntry, end: IndexEntry)
    requires s != t && k != g
    ensures Merged(map[s := map[k := link, g := end], t := map[k := lone]], map[k := lone, g := end])
  {
    var bySystem: Contents := map[s := map[k := link, g := end], t := map[k := lone]];
    assert k in bySystem[t] && g in bySystem[s];
  }

  lemma TwoAreReadable(all: Entries, k: StoreHash, g: StoreHash)
    requires all.Keys == {k, g} && Refs(all[k]) == Ok([]) && Refs(all[g]) == Ok([])
    ensures Readable(all) && RefGraph(all) == map[k := [], g := []]
  {
  }

  lemma Untraced(k: StoreHash, g: StoreHash)
    requires k != g
    ensures k !in Reach(map[k := [], g := []], Dependents, {}, {g})
  {
    ReachInsideClosed(map[k := [], g := []], Dependents, {}, {g}, {g});
  }

  lemma LoneEndsDangle(
    x: Platform, bySystem: Contents, all: Entries, s: SystemArch, k: StoreHash, g: StoreHash)
    requires Merged(bySystem, all) && s in bySystem && k in bySystem[s] && References(bySystem[s][k], g)
    requires all.Keys == {k, g} && k != g && Refs(all[k]) == Ok([]) && Refs(all[g]) == Ok([])
    ensures Readable(all) && !LeavesNoneDangling(x, bySystem, all, map[], PickOne(g))
  {
    TwoAreReadable(all, k, g);
    Untraced(k, g);
    UntracedDangles(x, bySystem, all, s, k, g);
  }

  lemma UntracedDangles(x: Platform, bySystem: Contents, all: Entries, s: SystemArch, k: StoreHash, g: StoreHash)
    requires Merged(bySystem, all) && Readable(all) && k !in Reach(RefGraph(all), Dependents, {}, {g})
    requires s in bySystem && k in bySystem[s] && References(bySystem[s][k], g) && g in all
    ensures !LeavesNoneDangling(x, bySystem, all, map[], PickOne(g))
  {
    if LeavesNoneDangling(x, bySystem, all, map[], PickOne(g)) {
      SafeIsTraced(x, bySystem, all, s, k, g);
    }
  }

  /**
   Two architectures with valid entries that share a hash, only one of which references another
   hash. Where the merge takes the entry without the reference, purging that hash with all its
   dependents leaves the other entry pointing to it.
   */
  lemma SharedHashCounterexample(x: Platform, s: SystemArch, t: SystemArch, added: string)
    returns (bySystem: Contents, all: Entries)
    requires s != t && s != Unknown && t != Unknown && x.instant(added).Some? && Trim(added) != ""
    ensures bySystem == map[s := Linking(s, added), t := Lone(t, added)]
    ensures AllValid(x, Linking(s, added)) && AllValid(x, Lone(t, added))
    ensures Merged(bySystem, all) && Readable(all)
    ensures !LeavesNoneDangling(x, bySystem, all, map[], PickOne(Referenced()))
  {
    SampleHashesDiffer();
    LinkingIsValid(x, s, added);
    LoneIsValid(x, t, added);
    bySystem, all := TwoIndexes(x, s, t, added, Shared(), Referenced());
  }

  lemma TwoIndexes(x: Platform, s: SystemArch, t: SystemArch, added: string, k: StoreHash, g: StoreHash)
    returns (bySystem: Contents, all: Entries)
    requires s != t && k == Shared() && g == Referenced() && k != g && IsStoreHash(g)
    ensures bySystem == map[s := Linking(s, added), t := Lone(t, added)]
    ensures Merged(bySystem, all) && Readable(all)
    ensures !LeavesNoneDangling(x, bySystem, all, map[], PickOne(g))
  {
    SampleReferences(s, k, g, added);
    SampleReferences(t, k, g, added);
    SampleReferences(s, g, g, added);
    bySystem, all := TwoMaps(
      x, s, t, k, g, Sample(s, k, [Basename(g)], added), Sample(t, k, [], added), Sample(s, g, [], added));
  }

  lemma TwoMaps(
    x: Platform, s: SystemArch, t: SystemArch, k: StoreHash, g: StoreHash, link: IndexEntry, lone: IndexEntry, end: IndexEntry)
    returns (bySystem: Contents, all: Entries)
    requires s != t && k != g && Refs(link) == Ok([g]) && Refs(lone) == Ok([]) && Refs(end) == Ok([])
    ensures bySystem == map[s := map[k := link, g := end], t := map[k := lone]]
    ensures Merged(bySystem, all) && Readable(all)
    ensures !LeavesNoneDangling(x, bySystem, all, map[], PickOne(g))
  {
    bySystem, all := map[s := map[k := link, g := end], t := map[k := lone]], map[k := lone, g := end];
    MergesTwo(s, t, k, g, link, lone, end);
    LoneEndsDangle(x, bySystem, all, s, k, g);
  }

  ghost predicate Holds(m: Entries, p: (StoreHash, IndexEntry) -> bool) {
    forall h | h in m :: p(h, m[h])
  }

  /** Every entry may be stored under its hash. */
  ghost predicate AllValid(x: Platform, m: Entries) {
    Holds(m, (h: StoreHash, e: IndexEntry) => ValidUnder(x, h, e))
  }

  lemma TwoHold(p: (StoreHash, IndexEntry) -> bool, k: StoreHash, a: IndexEntry, g: StoreHash, b: IndexEntry)
    requires p(k, a) && p(g, b) && k != g
    ensures Holds(map[k := a, g := b], p) && Holds(map[k := a], p)
  {
  }

  lemma TwoAreValid(x: Platform, k: StoreHash, a: IndexEntry, g: StoreHash, b: IndexEntry)
    requires ValidUnder(x, k, a) && ValidUnder(x, g, b) && k != g
    ensures AllValid(x, map[k := a, g := b]) && AllValid(x, map[k := a])
  {
    TwoHold((h: StoreHash, e: IndexEntry) => ValidUnder(x, h, e), k, a, g, b);
  }

  lemma LinkingIsValid(x: Platform, s: SystemArch, added: string)
    requires s != Unknown && x.instant(added).Some? && Trim(added) != ""
    ensures AllValid(x, Linking(s, added))
  {
    var k, g := Shared(), Referenced();
    SampleHashesDiffer();
    ReferenceParses(g);
    SampleIsValid(x, s, k, [Basename(g)], added);
    SampleIsValid(x, s, g, [], added);
    TwoAreValid(x, k, Sample(s, k, [Basename(g)], added), g, Sample(s, g, [], added));
  }

  lemma LoneIsValid(x: Platform, t: SystemArch, added: string)
    requires t != Unknown && x.instant(added).Some? && Trim(added) != ""
    ensures AllValid(x, Lone(t, added))
  {
    var k, g := Shared(), Referenced();
    SampleHashesDiffer();
    SampleIsValid(x, t, k, [], added);
    SampleIsValid(x, t, g, [], added);
    TwoAreValid(x, k, Sample(t, k, [], added), g, Sample(t, g, [], added));
  }
}
