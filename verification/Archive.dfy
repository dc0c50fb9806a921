/**
 The published index of every architecture. Each successful promote or purge is one step on
 plain maps of entries, and what is published always agrees with those maps.
 */
module Archive {
  import opened Basics
  import opened Order
  import opened Types
  import opened Merkle
  import opened Root
  import opened Store
  import opened Index
  import opened Selection
  import opened Purge

  type Contents = map<SystemArch, Entries>

  function EntriesOf(contents: Contents, system: SystemArch): Entries {
    if system in contents then contents[system] else map[]
  }

  ghost function RootsOf(roots: map<SystemArch, ArchRoot>, system: SystemArch): seq<StoreHash> {
    if system in roots then roots[system].gcRoots else []
  }

  ghost function KeyOf(roots: map<SystemArch, ArchRoot>, system: SystemArch): string {
    if system in roots then roots[system].publicKey else ""
  }

  ghost function EmptyDescriptors(x: Platform): seq<ShardDescriptor> {
    seq(NUM_SHARDS, id requires 0 <= id < NUM_SHARDS => EmptyDescriptor(x, id))
  }

  ghost function DescriptorsOf(x: Platform, roots: map<SystemArch, ArchRoot>, system: SystemArch): seq<ShardDescriptor> {
    if system in roots then roots[system].shards else EmptyDescriptors(x)
  }

  /** `ShardedArchCacheIndexData::new`: neither of its two assertions can fail. */
  method NewRoot(x: Platform, system: SystemArch, repo: string, registry: string, now: string) returns (r: ArchRoot)
    ensures InOrder(x, r.shards)
    ensures r == ArchRoot(SCHEMA_VERSION, system, repo, registry, now, "", r.shards, r.merkleRoot, [], None)
    ensures forall id | 0 <= id < NUM_SHARDS :: r.shards[id] == EmptyDescriptor(x, id)
    ensures RootMatches(x, r.shards, r.merkleRoot)
  {
    var shards: seq<ShardDescriptor> := [];
    for id := 0 to NUM_SHARDS
      invariant |shards| == id && forall j | 0 <= j < id :: shards[j] == EmptyDescriptor(x, j)
    {
      var empty := MakeEmpty(x, id);
      shards := shards + [empty.value];
    }
    InOrderIsComplete(x, shards);
    var root := ComputeMerkleRoot(x, shards);
    r := ArchRoot(SCHEMA_VERSION, system, repo, registry, now, "", shards, root.value, [], None);
  }

  lemma EmptyAgrees(x: Platform, c: Codec, blobs: Blobs, shards: seq<ShardDescriptor>)
    requires |shards| == NUM_SHARDS && forall id | 0 <= id < NUM_SHARDS :: shards[id] == EmptyDescriptor(x, id)
    ensures Agrees(x, c, blobs, shards, map[])
  {
    forall id | 0 <= id < NUM_SHARDS ensures Stands(x, c, blobs, id, shards[id], InShard(map[], id)) {
      EmptyStands(x, c, blobs, id);
    }
  }

  /** A published root is structurally valid and, failing a collision, stands for its map. */
  ghost predicate Agree(x: Platform, c: Codec, blobs: Blobs, clean: bool, root: ArchRoot, m: Entries) {
    ValidRoot(x, root) && AllHashes(m) && (clean ==> Agrees(x, c, blobs, root.shards, m))
  }

  ghost predicate Every<A(!new), B(!new)>(r: map<SystemArch, A>, c: map<SystemArch, B>, p: (A, B) -> bool) {
    r.Keys == c.Keys && forall s {:trigger p(r[s], c[s])} | s in r :: p(r[s], c[s])
  }

  lemma EveryUpdate<A(!new), B(!new)>(
    r: map<SystemArch, A>, c: map<SystemArch, B>, p: (A, B) -> bool, s: SystemArch, a: A, b: B)
    requires Every(r, c, p) && p(a, b)
    ensures Every(r[s := a], c[s := b], p)
  {
  }

  ghost function Agreement(x: Platform, c: Codec, blobs: Blobs, clean: bool): (ArchRoot, Entries) -> bool {
    (root: ArchRoot, m: Entries) => Agree(x, c, blobs, clean, root, m)
  }

  ghost predicate AllAgree(
    x: Platform, c: Codec, blobs: Blobs, clean: bool, roots: map<SystemArch, ArchRoot>, contents: Contents)
  {
    Every(roots, contents, Agreement(x, c, blobs, clean))
  }

  lemma AllAgreeUpdate(
    x: Platform, c: Codec, blobs: Blobs, clean: bool, roots: map<SystemArch, ArchRoot>, contents: Contents,
    system: SystemArch, root: ArchRoot, m: Entries)
    requires AllAgree(x, c, blobs, clean, roots, contents) && Agree(x, c, blobs, clean, root, m)
    ensures AllAgree(x, c, blobs, clean, roots[system := root], contents[system := m])
  {
    EveryUpdate(roots, contents, Agreement(x, c, blobs, clean), system, root, m);
  }

  lemma AllStand(
    x: Platform, c: Codec, a: Blobs, wasClean: bool, b: Blobs, clean: bool, roots: map<SystemArch, ArchRoot>,
    contents: Contents)
    requires AllAgree(x, c, a, wasClean, roots, contents) && Extends(a, b) && (clean ==> wasClean)
    ensures AllAgree(x, c, b, clean, roots, contents)
  {
    forall s | s in roots ensures Agree(x, c, b, clean, roots[s], contents[s]) {
      assert Agreement(x, c, a, wasClean)(roots[s], contents[s]);
      if clean {
        AgreesExtends(x, c, a, b, roots[s].shards, contents[s]);
      }
    }
  }

  lemma AgreeAt(
    x: Platform, c: Codec, blobs: Blobs, clean: bool, roots: map<SystemArch, ArchRoot>, contents: Contents, s: SystemArch)
    requires AllAgree(x, c, blobs, clean, roots, contents) && s in roots
    ensures s in contents && Agree(x, c, blobs, clean, roots[s], contents[s])
  {
    assert Agreement(x, c, blobs, clean)(roots[s], contents[s]);
  }

  lemma AgreesAt(
    x: Platform, c: Codec, blobs: Blobs, clean: bool, roots: map<SystemArch, ArchRoot>, contents: Contents, s: SystemArch)
    requires AllAgree(x, c, blobs, clean, roots, contents) && s in roots
    ensures s in contents && |roots[s].shards| == NUM_SHARDS && InOrder(x, roots[s].shards) && AllHashes(contents[s])
    ensures clean ==> Agrees(x, c, blobs, roots[s].shards, contents[s])
  {
    AgreeAt(x, c, blobs, clean, roots, contents, s);
  }

  lemma StandsAt(
    x: Platform, c: Codec, blobs: Blobs, clean: bool, roots: map<SystemArch, ArchRoot>, contents: Contents, s: SystemArch)
    requires AllAgree(x, c, blobs, clean, roots, contents) && s in roots
    ensures s in contents && |roots[s].shards| == NUM_SHARDS
    ensures clean ==> Agrees(x, c, blobs, roots[s].shards, contents[s])
  {
    AgreeAt(x, c, blobs, clean, roots, contents, s);
  }

  /** `extend`, `sort_unstable` and `dedup`. */
  method UnionOfRoots(a: seq<StoreHash>, b: seq<StoreHash>) returns (r: seq<StoreHash>)
    ensures r == SortedSet(ToSet(a) + ToSet(b))
  {
    r := Dedup(Sort(a + b));
    SortDedup(a + b);
    assert ToSet(a + b) == ToSet(a) + ToSet(b);
  }

  ghost predicate BelongsTo(system: SystemArch, repo: string, host: string, root: ArchRoot) {
    root.system == system && root.repo == repo && root.registry == host
  }

  ghost function Belonging(repo: string, host: string): (ArchRoot, SystemArch) -> bool {
    (root: ArchRoot, s: SystemArch) => BelongsTo(s, repo, host, root)
  }

  ghost function Owners(roots: map<SystemArch, ArchRoot>): map<SystemArch, SystemArch> {
    map s | s in roots :: s
  }

  /** Every root is published under its own architecture, repository and registry. */
  ghost predicate Identified(repo: string, host: string, roots: map<SystemArch, ArchRoot>) {
    Every(roots, Owners(roots), Belonging(repo, host))
  }

  lemma IdentifiedAt(repo: string, host: string, roots: map<SystemArch, ArchRoot>, s: SystemArch)
    requires Identified(repo, host, roots) && s in roots
    ensures BelongsTo(s, repo, host, roots[s])
  {
    assert Belonging(repo, host)(roots[s], Owners(roots)[s]);
  }

  lemma IdentifiedUpdate(repo: string, host: string, roots: map<SystemArch, ArchRoot>, s: SystemArch, root: ArchRoot)
    requires Identified(repo, host, roots) && BelongsTo(s, repo, host, root)
    ensures Identified(repo, host, roots[s := root])
  {
    EveryUpdate(roots, Owners(roots), Belonging(repo, host), s, root, s);
    assert Owners(roots[s := root]) == Owners(roots)[s := s];
  }

  /** Only what a purge recomputes differs. */
  ghost predicate Purged(was: ArchRoot, gcRoots: seq<StoreHash>, now: string, root: ArchRoot) {
    root == was.(shards := root.shards, merkleRoot := root.merkleRoot, gcRoots := gcRoots, version := SCHEMA_VERSION,
                 generated := now)
  }

  /** A key that is already there stays. */
  function KeptKey(was: string, given: string): string {
    if was == "" then given else was
  }

  /** What a promotion says about the root besides its shards and GC roots. */
  ghost predicate Stamped(
    system: SystemArch, repo: string, host: string, key: string, now: string, run: Option<nat>, root: ArchRoot)
  {
    && BelongsTo(system, repo, host, root) && root.publicKey == key && root.generated == now && root.lastPromotedRun == run
    && root.version == SCHEMA_VERSION
  }

  /** What is there before a promotion: the published root, or a blank one. */
  ghost predicate Fetched(
    x: Platform, roots: map<SystemArch, ArchRoot>, system: SystemArch, repo: string, host: string, root: ArchRoot)
  {
    && BelongsTo(system, repo, host, root) && root.publicKey == KeyOf(roots, system) && root.gcRoots == RootsOf(roots, system)
    && root.shards == DescriptorsOf(x, roots, system)
  }

  /** The root differs in nothing but its stamp, the added GC roots and the shards that receive entries. */
  ghost predicate MergedFrom(
    before: ArchRoot, incoming: Entries, newRoots: seq<StoreHash>, key: string, now: string, run: Option<nat>, root: ArchRoot)
    requires AllHashes(incoming)
  {
    && Stamped(before.system, before.repo, before.registry, KeptKey(before.publicKey, key), now, run, root)
    && root.gcRoots == SortedSet(ToSet(before.gcRoots) + ToSet(newRoots))
    && Untouched(before.shards, root.shards, incoming)
  }

  /** A shard that receives nothing keeps its descriptor. */
  ghost predicate Untouched(before: seq<ShardDescriptor>, after: seq<ShardDescriptor>, incoming: Entries)
    requires AllHashes(incoming)
  {
    && |before| == |after| == NUM_SHARDS
    && forall id | 0 <= id < NUM_SHARDS && InShard(incoming, id) == map[] :: after[id] == before[id]
  }

  /** The same, of a root that is published over what was published. */
  ghost predicate Promoted(
    x: Platform, was: map<SystemArch, ArchRoot>, system: SystemArch, repo: string, host: string, incoming: Entries,
    newRoots: seq<StoreHash>, key: string, now: string, run: Option<nat>, root: ArchRoot)
    requires AllHashes(incoming)
  {
    && Stamped(system, repo, host, KeptKey(KeyOf(was, system), key), now, run, root)
    && root.gcRoots == SortedSet(ToSet(RootsOf(was, system)) + ToSet(newRoots))
    && Untouched(DescriptorsOf(x, was, system), root.shards, incoming)
  }

  ghost function Promotion(
    x: Platform, was: map<SystemArch, ArchRoot>, system: SystemArch, repo: string, host: string, incoming: Entries,
    newRoots: seq<StoreHash>, key: string, now: string, run: Option<nat>): ArchRoot -> bool
    requires AllHashes(incoming)
  {
    (root: ArchRoot) => Promoted(x, was, system, repo, host, incoming, newRoots, key, now, run, root)
  }

  lemma MergedIsPromoted(
    x: Platform, was: map<SystemArch, ArchRoot>, system: SystemArch, repo: string, host: string, before: ArchRoot,
    incoming: Entries, newRoots: seq<StoreHash>, key: string, now: string, run: Option<nat>, root: ArchRoot)
    requires AllHashes(incoming) && Fetched(x, was, system, repo, host, before)
    requires MergedFrom(before, incoming, newRoots, key, now, run, root)
    ensures Promotion(x, was, system, repo, host, incoming, newRoots, key, now, run)(root) && BelongsTo(system, repo, host, root)
  {
  }

  lemma SealedIsPromoted(
    x: Platform, was: map<SystemArch, ArchRoot>, system: SystemArch, repo: string, host: string, incoming: Entries,
    newRoots: seq<StoreHash>, key: string, now: string, run: Option<nat>, root: ArchRoot, sealed: ArchRoot)
    requires AllHashes(incoming) && Promotion(x, was, system, repo, host, incoming, newRoots, key, now, run)(root)
    requires sealed == root.(merkleRoot := sealed.merkleRoot)
    ensures Promotion(x, was, system, repo, host, incoming, newRoots, key, now, run)(sealed)
  {
  }

  /** The same architecture, repository, registry, key and run. */
  ghost predicate SameOrigin(a: ArchRoot, b: ArchRoot) {
    && a.system == b.system && a.repo == b.repo && a.registry == b.registry && a.publicKey == b.publicKey
    && a.lastPromotedRun == b.lastPromotedRun
  }

  ghost function SameOriginRelation(): (ArchRoot, ArchRoot) -> bool {
    (a: ArchRoot, b: ArchRoot) => SameOrigin(a, b)
  }

  ghost predicate SameOrigins(was: map<SystemArch, ArchRoot>, roots: map<SystemArch, ArchRoot>) {
    Every(was, roots, SameOriginRelation())
  }

  lemma SameOriginsUpdate(was: map<SystemArch, ArchRoot>, roots: map<SystemArch, ArchRoot>, s: SystemArch, root: ArchRoot)
    requires SameOrigins(was, roots) && s in roots && SameOrigin(roots[s], root)
    ensures SameOrigins(was, roots[s := root])
  {
    assert SameOriginRelation()(was[s], roots[s]);
    EveryUpdate(was, roots, SameOriginRelation(), s, was[s], root);
    assert was[s := was[s]] == was;
  }

  lemma SameOriginsReflexive(roots: map<SystemArch, ArchRoot>)
    ensures SameOrigins(roots, roots)
  {
  }

  /** The root a promotion is about to publish. */
  method MergeRoot(
    reg: Registry, before: ArchRoot, incoming: Entries, newRoots: seq<StoreHash>, publicKey: string, now: string,
    run: Option<nat>, system: SystemArch, limits: Limits, ghost m: Entries)
    returns (r: Result<ArchRoot, StoreError>)
    requires reg.Valid() && AllHashes(incoming) && AllHashes(m) && InOrder(reg.x, before.shards)
    requires reg.collision.None? ==> Agrees(reg.x, reg.codec, reg.blobs, before.shards, m)
    modifies reg
    ensures reg.Valid() && Extends(old(reg.blobs), reg.blobs) && (reg.collision.None? ==> old(reg.collision).None?)
    ensures r.Ok? ==> MergedFrom(before, incoming, newRoots, publicKey, now, run, r.value)
    ensures r.Ok? && reg.collision.None? ==> Agrees(reg.x, reg.codec, reg.blobs, r.value.shards, m + incoming)
  {
    var root := before;
    if publicKey != "" && root.publicKey == "" {
      root := root.(publicKey := publicKey);
    }
    var shards := MergeShards(reg, root.shards, incoming, system, limits, m);
    if shards.Err? {
      return Err(shards.error);
    }
    var gcRoots := UnionOfRoots(root.gcRoots, newRoots);
    r := Ok(root.(shards := shards.value, gcRoots := gcRoots, version := SCHEMA_VERSION, generated := now,
                  lastPromotedRun := run));
  }

  /** A shard that lost nothing keeps its descriptor. */
  ghost predicate SpareDescriptors(
    before: seq<ShardDescriptor>, after: seq<ShardDescriptor>, m: Entries, gone: set<StoreHash>)
    requires AllHashes(m)
  {
    && |before| == |after| == NUM_SHARDS && AllHashes(m - gone)
    && forall id | 0 <= id < NUM_SHARDS && InShard(m - gone, id) == InShard(m, id) :: after[id] == before[id]
  }

  /** The root a purge is about to publish. */
  method ReduceRoot(
    reg: Registry, before: ArchRoot, gcRoots: seq<StoreHash>, now: string, m: Entries, gone: set<StoreHash>)
    returns (r: Result<ArchRoot, StoreError>)
    requires reg.Valid() && AllHashes(m) && |before.shards| == NUM_SHARDS
    requires reg.collision.None? ==> Agrees(reg.x, reg.codec, reg.blobs, before.shards, m)
    modifies reg
    ensures reg.Valid() && Extends(old(reg.blobs), reg.blobs) && (reg.collision.None? ==> old(reg.collision).None?)
    ensures r.Ok? ==> Purged(before, gcRoots, now, r.value)
    ensures r.Ok? && reg.collision.None? ==> Agrees(reg.x, reg.codec, reg.blobs, r.value.shards, m - gone)
    ensures r.Ok? && reg.collision.None? ==> SpareDescriptors(before.shards, r.value.shards, m, gone)
  {
    var shards := ReduceShards(reg, before.shards, m - gone, m, gone);
    if shards.Err? {
      return Err(shards.error);
    }
    r := Ok(before.(shards := shards.value, gcRoots := gcRoots, version := SCHEMA_VERSION, generated := now));
  }

  datatype Loaded = Loaded(bySystem: Contents, all: Entries, gcRoots: Roots)

  /** All entries together; where architectures share a hash, the entry of one of them. */
  ghost predicate Merged(bySystem: Contents, all: Entries) {
    && (forall s, h | s in bySystem && h in bySystem[s] :: h in all)
    && forall h | h in all :: exists s | s in bySystem :: h in bySystem[s] && all[h] == bySystem[s][h]
  }

  lemma MergedGrows(bySystem: Contents, all: Entries, s: SystemArch, m: Entries)
    requires Merged(bySystem, all) && s !in bySystem
    ensures Merged(bySystem[s := m], all + m)
  {
    var now := bySystem[s := m];
    forall h | h in all + m ensures exists t | t in now :: h in now[t] && (all + m)[h] == now[t][h] {
      if h in m {
        assert h in now[s];
      } else {
        var t :| t in bySystem && h in bySystem[t] && all[h] == bySystem[t][h];
        assert h in now[t];
      }
    }
  }

  /** The loaded maps are those of the loaded architectures, failing a collision. */
  ghost predicate LoadedFrom(
    targets: set<SystemArch>, roots: map<SystemArch, ArchRoot>, contents: Contents, clean: bool, l: Loaded)
  {
    && l.bySystem.Keys == targets * roots.Keys && l.gcRoots.Keys == l.bySystem.Keys
    && (forall s | s in l.bySystem :: AllHashes(l.bySystem[s]) && s in roots && l.gcRoots[s] == roots[s].gcRoots)
    && (clean ==> forall s | s in l.bySystem :: s in contents && l.bySystem[s] == contents[s])
    && Merged(l.bySystem, l.all)
  }

  lemma LoadedGrows(
    targets: set<SystemArch>, roots: map<SystemArch, ArchRoot>, contents: Contents, clean: bool, l: Loaded,
    s: SystemArch, m: Entries)
    requires LoadedFrom(targets, roots, contents, clean, l) && s !in targets
    requires s in roots && s in contents && AllHashes(m) && (clean ==> m == contents[s])
    ensures LoadedFrom(targets + {s}, roots, contents, clean,
                       Loaded(l.bySystem[s := m], l.all + m, l.gcRoots[s := roots[s].gcRoots]))
  {
    MergedGrows(l.bySystem, l.all, s, m);
  }

  lemma LoadedSkips(
    targets: set<SystemArch>, roots: map<SystemArch, ArchRoot>, contents: Contents, clean: bool, l: Loaded, s: SystemArch)
    requires LoadedFrom(targets, roots, contents, clean, l) && s !in roots
    ensures LoadedFrom(targets + {s}, roots, contents, clean, l)
  {
    assert (targets + {s}) * roots.Keys == targets * roots.Keys;
  }

  /** Some of the loaded architectures are re-compacted, those in `rest` not yet. */
  ghost predicate PartlyPurged(
    was: Contents, wasRoots: map<SystemArch, ArchRoot>, contents: Contents, roots: map<SystemArch, ArchRoot>,
    bySystem: Contents, gone: set<StoreHash>, updated: Roots, rest: set<SystemArch>)
  {
    && contents.Keys == was.Keys == roots.Keys == wasRoots.Keys && bySystem.Keys <= roots.Keys
    && (forall s | s in bySystem && s !in rest ::
          contents[s] == bySystem[s] - gone && roots[s].gcRoots == if s in updated then updated[s] else [])
    && (forall s | s in contents && (s in rest || s !in bySystem) :: contents[s] == was[s] && roots[s] == wasRoots[s])
  }

  lemma PurgedGrows(
    was: Contents, wasRoots: map<SystemArch, ArchRoot>, contents: Contents, roots: map<SystemArch, ArchRoot>,
    bySystem: Contents, gone: set<StoreHash>, updated: Roots, rest: set<SystemArch>, s: SystemArch, root: ArchRoot)
    requires PartlyPurged(was, wasRoots, contents, roots, bySystem, gone, updated, rest) && s in rest && rest <= bySystem.Keys
    requires root.gcRoots == if s in updated then updated[s] else []
    ensures PartlyPurged(was, wasRoots, contents[s := bySystem[s] - gone], roots[s := root], bySystem, gone, updated, rest - {s})
  {
  }

  datatype PurgeOutcome = Untouched | Preview(result: PurgeResult) | Published(result: PurgeResult)

  /** What one operation does to the plain maps. */
  datatype Change =
    | Overwrite(system: SystemArch, entries: Entries)
    | Remove(systems: set<SystemArch>, gone: set<StoreHash>)

  function Apply(contents: Contents, change: Change): Contents {
    match change
    case Overwrite(system, entries) => contents[system := EntriesOf(contents, system) + entries]
    case Remove(systems, gone) => map s | s in contents :: if s in systems then contents[s] - gone else contents[s]
  }

  lemma PurgedIsRemoved(
    was: Contents, wasRoots: map<SystemArch, ArchRoot>, contents: Contents, roots: map<SystemArch, ArchRoot>, l: Loaded,
    gone: set<StoreHash>, updated: Roots, rest: set<SystemArch>, targets: set<SystemArch>, clean: bool)
    requires LoadedFrom(targets, wasRoots, was, clean, l)
    requires PartlyPurged(was, wasRoots, contents, roots, l.bySystem, gone, updated, rest)
    ensures l.bySystem.Keys - rest <= targets && (rest == {} ==> l.bySystem.Keys - rest == l.bySystem.Keys)
    ensures clean ==> contents == Apply(was, Remove(l.bySystem.Keys - rest, gone))
  {
  }

  lemma NothingRemoved(contents: Contents)
    ensures Apply(contents, Remove({}, {})) == contents
  {
  }

  // --- Runs ------------------------------------------------------------------------------------

  datatype Step =
    | PromoteStep(system: SystemArch, entries: Entries, gcRoots: seq<StoreHash>, publicKey: string, run: Option<nat>)
    | PurgeStep(targets: set<SystemArch>, selector: CacheSelector, dryRun: bool)

  /** A step as it was logged: what it changed, what was published before it, and what a purge had loaded. */
  datatype Logged = Logged(change: Change, published: map<SystemArch, ArchRoot>, loaded: Loaded)

  ghost function Replay(contents: Contents, log: seq<Logged>): Contents {
    if log == [] then contents else Apply(Replay(contents, log[..|log| - 1]), log[|log| - 1].change)
  }

  lemma ReplayNext(contents: Contents, log: seq<Logged>, e: Logged)
    ensures Replay(contents, log + [e]) == Apply(Replay(contents, log), e.change)
  {
    assert (log + [e])[..|log|] == log;
  }

  /** The hashes a purge removes are those its selector picks from all it loaded. */
  ghost predicate Evaluated(x: Platform, clean: bool, was: Contents, step: Step, e: Logged)
    requires step.PurgeStep? && e.change.Remove?
  {
    && LoadedFrom(step.targets, e.published, was, clean, e.loaded) && Readable(e.loaded.all)
    && e.change.gone == e.loaded.all.Keys * Total(x, e.loaded.all, e.loaded.gcRoots, step.selector)
    && e.change.systems <= e.loaded.bySystem.Keys
  }

  /** What a step does to the maps as they were: itself if it succeeds, nothing or a part of it if not. */
  ghost predicate Explains(x: Platform, clean: bool, was: Contents, step: Step, e: Logged) {
    match step
    case PromoteStep(system, entries, _, _, _) => e.change == Overwrite(system, entries) || e.change == Remove({}, {})
    case PurgeStep(targets, _, dryRun) =>
      && e.change.Remove? && e.change.systems <= targets && (dryRun ==> e.change.systems == {})
      && (e.change.systems != {} ==> Evaluated(x, clean, was, step, e))
  }

  lemma ExplainsStill(x: Platform, a: bool, was: Contents, b: bool, now: Contents, step: Step, e: Logged)
    requires Explains(x, a, was, step, e) && (b ==> a && was == now)
    ensures Explains(x, b, now, step, e)
  {
    if step.PurgeStep? && e.change.systems != {} && !b {
      LoadedStill(step.targets, e.published, was, a, now, e.loaded);
    }
  }

  lemma LoadedStill(
    targets: set<SystemArch>, roots: map<SystemArch, ArchRoot>, was: Contents, clean: bool, now: Contents, l: Loaded)
    requires LoadedFrom(targets, roots, was, clean, l)
    ensures LoadedFrom(targets, roots, now, false, l)
  {
  }

  /** Every step so far is explained by the maps that the steps before it leave. */
  ghost predicate AllExplained(x: Platform, clean: bool, contents: Contents, steps: seq<Step>, log: seq<Logged>) {
    |log| <= |steps| && forall i | 0 <= i < |log| :: Explains(x, clean, Replay(contents, log[..i]), steps[i], log[i])
  }

  lemma ExplainedNext(
    x: Platform, a: bool, b: bool, contents: Contents, was: Contents, steps: seq<Step>, log: seq<Logged>, e: Logged)
    requires AllExplained(x, a, contents, steps, log) && |log| < |steps| && (b ==> a && was == Replay(contents, log))
    requires Explains(x, b, was, steps[|log|], e)
    ensures AllExplained(x, b, contents, steps, log + [e])
  {
    var next := log + [e];
    forall i | 0 <= i < |next| ensures Explains(x, b, Replay(contents, next[..i]), steps[i], next[i]) {
      if i < |log| {
        assert next[..i] == log[..i];
        ExplainsStill(x, a, Replay(contents, log[..i]), b, Replay(contents, log[..i]), steps[i], log[i]);
      } else {
        assert next[..i] == log;
        ExplainsStill(x, b, was, b, Replay(contents, log), steps[i], e);
      }
    }
  }

  lemma PurgedArePicked(
    x: Platform, a: bool, b: bool, was: Contents, step: Step, e: Logged, result: PurgeResult)
    requires step.PurgeStep? && e.change.Remove? && (b ==> a)
    requires LoadedFrom(step.targets, e.published, was, a, e.loaded) && Readable(e.loaded.all)
    requires Picked(x, e.loaded.all, e.loaded.gcRoots, step.selector, result.purged, result.kept)
    requires e.change.gone == result.purged.Keys && e.change.systems <= e.loaded.bySystem.Keys
    ensures Evaluated(x, b, was, step, e)
  {
    KeptEntries(x, e.loaded.all, e.loaded.gcRoots, step.selector, result.purged, result.kept);
    if !b { LoadedStill(step.targets, e.published, was, a, was, e.loaded); }
  }

  method BlankRoot(reg: Registry, system: SystemArch, repo: string, registry: string, now: string) returns (r: ArchRoot)
    ensures InOrder(reg.x, r.shards)
    ensures r == ArchRoot(SCHEMA_VERSION, system, repo, registry, now, "", r.shards, r.merkleRoot, [], None)
    ensures forall id | 0 <= id < NUM_SHARDS :: r.shards[id] == EmptyDescriptor(reg.x, id)
    ensures Agrees(reg.x, reg.codec, reg.blobs, r.shards, map[])
  {
    r := NewRoot(reg.x, system, repo, registry, now);
    EmptyAgrees(reg.x, reg.codec, reg.blobs, r.shards);
  }

  class Archive {
    const reg: Registry
    const repo: string
    const host: string
    var roots: map<SystemArch, ArchRoot>
    /** The simple model: one map of entries per architecture. */
    ghost var contents: Contents

    constructor (reg: Registry, repo: string, host: string)
      requires reg.Valid()
      ensures Valid() && this.reg == reg && contents == map[] && roots == map[]
    {
      this.reg, this.repo, this.host, this.roots, this.contents := reg, repo, host, map[], map[];
    }

    ghost predicate Valid()
      reads this, reg
    {
      && reg.Valid() && AllAgree(reg.x, reg.codec, reg.blobs, reg.collision.None?, roots, contents)
      && Identified(repo, host, roots)
    }

    /** New blobs change nothing that is published. */
    twostate lemma StaysValid()
      requires old(Valid()) && reg.Valid() && Extends(old(reg.blobs), reg.blobs)
      requires reg.collision.None? ==> old(reg.collision).None?
      requires unchanged(this)
      ensures Valid()
    {
      AllStand(reg.x, reg.codec, old(reg.blobs), old(reg.collision.None?), reg.blobs, reg.collision.None?, roots, contents);
    }

    /** The published root of an architecture, or a blank one. */
    method FetchRoot(system: SystemArch, now: string) returns (r: Result<ArchRoot, StoreError>)
      requires Valid()
      ensures r.Ok? ==> InOrder(reg.x, r.value.shards) && AllHashes(EntriesOf(contents, system))
      ensures r.Ok? ==> Fetched(reg.x, roots, system, repo, host, r.value)
      ensures r.Ok? && reg.collision.None? ==>
                Agrees(reg.x, reg.codec, reg.blobs, r.value.shards, EntriesOf(contents, system))
    {
      if * {
        return Err(Unavailable);
      }
      if system in roots {
        AgreesAt(reg.x, reg.codec, reg.blobs, reg.collision.None?, roots, contents, system);
        IdentifiedAt(repo, host, roots, system);
        return Ok(roots[system]);
      }
      var root := BlankRoot(reg, system, repo, host, now);
      assert root.shards == EmptyDescriptors(reg.x);
      r := Ok(root);
    }

    /** The root with its Merkle root computed anew, if it is structurally valid. */
    method SealRoot(candidate: ArchRoot) returns (r: Result<ArchRoot, StoreError>)
      ensures r.Ok? ==> r.value == candidate.(merkleRoot := r.value.merkleRoot) && ValidRoot(reg.x, r.value)
      ensures WellFormed(reg.x, candidate) && InOrder(reg.x, candidate.shards) ==> r.Ok?
    {
      if InOrder(reg.x, candidate.shards) { InOrderIsComplete(reg.x, candidate.shards); }
      var merkle := ComputeMerkleRoot(reg.x, candidate.shards);
      if merkle.Err? {
        return Err(Rejected);
      }
      var root := candidate.(merkleRoot := merkle.value);
      var ok := ValidateRoot(reg.x, root);
      r := if ok then Ok(root) else Err(Rejected);
    }

    /** `push_sharded_root`, after the Merkle root was computed anew. */
    method PushRoot(system: SystemArch, candidate: ArchRoot, ghost m: Entries) returns (r: Result<ArchRoot, StoreError>)
      requires Valid() && AllHashes(m) && BelongsTo(system, repo, host, candidate)
      requires reg.collision.None? ==> Agrees(reg.x, reg.codec, reg.blobs, candidate.shards, m)
      modifies this
      ensures Valid()
      ensures r.Err? ==> unchanged(this)
      ensures r == Err(Rejected) && reg.collision.None? ==> !WellFormed(reg.x, candidate)
      ensures r.Ok? ==> r.value == candidate.(merkleRoot := r.value.merkleRoot)
      ensures r.Ok? ==> roots == old(roots)[system := r.value] && contents == old(contents)[system := m]
    {
      if reg.collision.None? { AgreesIsInOrder(reg.x, reg.codec, reg.blobs, candidate.shards, m); }
      var sealed := SealRoot(candidate);
      if sealed.Err? {
        return sealed;
      }
      if * {
        return Err(Unavailable);
      }
      var root := sealed.value;
      AllAgreeUpdate(reg.x, reg.codec, reg.blobs, reg.collision.None?, roots, contents, system, root, m);
      IdentifiedUpdate(repo, host, roots, system, root);
      SetRoot(system, root, m);
      r := Ok(root);
    }

    method SetRoot(system: SystemArch, root: ArchRoot, ghost m: Entries)
      modifies this
      ensures roots == old(roots)[system := root] && contents == old(contents)[system := m]
    {
      roots, contents := roots[system := root], contents[system := m];
    }

    /** The root that a promotion is about to publish over what is published. */
    method PrepareRoot(
      system: SystemArch, incoming: Entries, newRoots: seq<StoreHash>, publicKey: string, now: string,
      run: Option<nat>, limits: Limits)
      returns (r: Result<ArchRoot, StoreError>)
      requires Valid() && AllHashes(incoming)
      modifies reg
      ensures Valid() && Extends(old(reg.blobs), reg.blobs) && (reg.collision.None? ==> old(reg.collision).None?)
      ensures r.Ok? ==> Promotion(reg.x, roots, system, repo, host, incoming, newRoots, publicKey, now, run)(r.value)
      ensures r.Ok? ==> BelongsTo(system, repo, host, r.value)
      ensures r.Ok? ==> AllHashes(EntriesOf(contents, system) + incoming)
      ensures r.Ok? && reg.collision.None? ==>
                Agrees(reg.x, reg.codec, reg.blobs, r.value.shards, EntriesOf(contents, system) + incoming)
    {
      r := FetchRoot(system, now);
      if r.Ok? {
        ghost var before := r.value;
        r := MergeRoot(
          reg, r.value, incoming, newRoots, publicKey, now, run, system, limits, EntriesOf(contents, system));
        StaysValid();
        if r.Ok? {
          MergedIsPromoted(reg.x, roots, system, repo, host, before, incoming, newRoots, publicKey, now, run, r.value);
        }
      }
    }

    /** `run_promote` for one architecture: the map is overwritten by the incoming entries. */
    method Promote(
      system: SystemArch, incoming: Entries, newRoots: seq<StoreHash>, publicKey: string, now: string,
      run: Option<nat>, limits: Limits)
      returns (r: Result<ArchRoot, StoreError>)
      requires Valid() && AllHashes(incoming)
      modifies this, reg
      ensures Valid() && Extends(old(reg.blobs), reg.blobs) && (reg.collision.None? ==> old(reg.collision).None?)
      ensures r.Err? ==> unchanged(this)
      ensures r.Ok? ==> roots == old(roots)[system := r.value]
      ensures r.Ok? ==> contents == old(contents)[system := EntriesOf(old(contents), system) + incoming]
      ensures r.Ok? ==> Promotion(reg.x, old(roots), system, repo, host, incoming, newRoots, publicKey, now, run)(r.value)
    {
      var ready := PrepareRoot(system, incoming, newRoots, publicKey, now, run, limits);
      if ready.Err? {
        return ready;
      }
      r := PushRoot(system, ready.value, EntriesOf(contents, system) + incoming);
      if r.Ok? {
        SealedIsPromoted(
          reg.x, old(roots), system, repo, host, incoming, newRoots, publicKey, now, run, ready.value, r.value);
      }
    }

    /** Adds one architecture to what is loaded, if it is published. */
    method LoadOne(s: SystemArch, l: Loaded, limits: Limits, ghost done: set<SystemArch>) returns (r: Result<Loaded, StoreError>)
      requires Valid() && s !in done && LoadedFrom(done, roots, contents, reg.collision.None?, l)
      ensures r.Ok? ==> LoadedFrom(done + {s}, roots, contents, reg.collision.None?, r.value)
    {
      if * {
        return Err(Unavailable);
      }
      if s !in roots {
        LoadedSkips(done, roots, contents, reg.collision.None?, l, s);
        return Ok(l);
      }
      AgreesAt(reg.x, reg.codec, reg.blobs, reg.collision.None?, roots, contents, s);
      var part := LoadEntries(reg, roots[s].shards, s, limits, contents[s]);
      if part.Err? {
        return Err(part.error);
      }
      LoadedGrows(done, roots, contents, reg.collision.None?, l, s, part.value);
      r := Ok(Loaded(l.bySystem[s := part.value], l.all + part.value, l.gcRoots[s := roots[s].gcRoots]));
    }

    /** Reads the entries and GC roots of all target architectures that are published. */
    method LoadAll(targets: set<SystemArch>, limits: Limits) returns (r: Result<Loaded, StoreError>)
      requires Valid()
      ensures r.Ok? ==> LoadedFrom(targets, roots, contents, reg.collision.None?, r.value)
    {
      var l := Loaded(map[], map[], map[]);
      var rest := targets;
      while rest != {}
        invariant rest <= targets && LoadedFrom(targets - rest, roots, contents, reg.collision.None?, l)
        decreases rest
      {
        var s :| s in rest;
        var next := LoadOne(s, l, limits, targets - rest);
        if next.Err? {
          return Err(next.error);
        }
        l := next.value;
        assert targets - rest + {s} == targets - (rest - {s});
        rest := rest - {s};
      }
      assert targets - rest == targets;
      r := Ok(l);
    }

    method PublishedRoot(system: SystemArch, ghost m: Entries) returns (root: ArchRoot)
      requires Valid() && system in roots && (reg.collision.None? ==> m == contents[system])
      ensures root == roots[system] && |root.shards| == NUM_SHARDS && BelongsTo(system, repo, host, root)
      ensures reg.collision.None? ==> Agrees(reg.x, reg.codec, reg.blobs, root.shards, m)
    {
      StandsAt(reg.x, reg.codec, reg.blobs, reg.collision.None?, roots, contents, system);
      IdentifiedAt(repo, host, roots, system);
      root := roots[system];
    }

    /** The re-compaction of one architecture. */
    method PurgeArch(system: SystemArch, m: Entries, gone: set<StoreHash>, gcRoots: seq<StoreHash>, now: string)
      returns (r: Result<ArchRoot, StoreError>)
      requires Valid() && system in roots && AllHashes(m) && (reg.collision.None? ==> m == contents[system])
      modifies this, reg
      ensures Valid() && Extends(old(reg.blobs), reg.blobs) && (reg.collision.None? ==> old(reg.collision).None?)
      ensures r.Err? ==> unchanged(this)
      ensures r.Ok? ==> roots == old(roots)[system := r.value] && contents == old(contents)[system := m - gone]
      ensures r.Ok? ==> Purged(old(roots)[system], gcRoots, now, r.value)
      ensures r.Ok? && reg.collision.None? ==> SpareDescriptors(old(roots)[system].shards, r.value.shards, m, gone)
    {
      InShardOfRest(m, gone, 0);
      var before := PublishedRoot(system, m);
      var reduced := ReduceRoot(reg, before, gcRoots, now, m, gone);
      StaysValid();
      if reduced.Err? {
        return reduced;
      }
      r := PushRoot(system, reduced.value, m - gone);
    }

    method PurgeNext(
      s: SystemArch, l: Loaded, gone: set<StoreHash>, updated: Roots, now: string, ghost was: Contents,
      ghost wasRoots: map<SystemArch, ArchRoot>, ghost todo: set<SystemArch>)
      returns (r: Result<ArchRoot, StoreError>)
      requires Valid() && s in todo && todo <= l.bySystem.Keys && s in roots && AllHashes(l.bySystem[s])
      requires reg.collision.None? ==> l.bySystem[s] == contents[s]
      requires PartlyPurged(was, wasRoots, contents, roots, l.bySystem, gone, updated, todo) && SameOrigins(wasRoots, roots)
      modifies this, reg
      ensures Valid() && Extends(old(reg.blobs), reg.blobs) && (reg.collision.None? ==> old(reg.collision).None?)
      ensures r.Err? ==> unchanged(this)
      ensures r.Ok? ==> PartlyPurged(was, wasRoots, contents, roots, l.bySystem, gone, updated, todo - {s})
      ensures SameOrigins(wasRoots, roots)
    {
      ghost var c, q := contents, roots;
      r := PurgeArch(s, l.bySystem[s], gone, if s in updated then updated[s] else [], now);
      if r.Ok? {
        SameOriginsUpdate(wasRoots, q, s, r.value);
        PurgedGrows(was, wasRoots, c, q, l.bySystem, gone, updated, todo, s, r.value);
      }
    }

    /** Re-compacts every loaded architecture; a failure leaves the later ones alone. */
    method PurgeEach(l: Loaded, gone: set<StoreHash>, updated: Roots, now: string, ghost targets: set<SystemArch>)
      returns (r: Result<(), StoreError>, ghost change: Change)
      requires Valid() && LoadedFrom(targets, roots, contents, reg.collision.None?, l)
      modifies this, reg
      ensures Valid() && Extends(old(reg.blobs), reg.blobs) && (reg.collision.None? ==> old(reg.collision).None?)
      ensures r.Ok? ==> PartlyPurged(old(contents), old(roots), contents, roots, l.bySystem, gone, updated, {})
      ensures SameOrigins(old(roots), roots)
      ensures change.Remove? && change.gone == gone && change.systems <= targets && change.systems <= l.bySystem.Keys
      ensures r.Ok? ==> change.systems == l.bySystem.Keys
      ensures reg.collision.None? ==> contents == Apply(old(contents), change)
    {
      var todo := l.bySystem.Keys;
      SameOriginsReflexive(roots);
      while todo != {}
        invariant todo <= l.bySystem.Keys && Valid() && Extends(old(reg.blobs), reg.blobs)
        invariant reg.collision.None? ==> old(reg.collision).None?
        invariant PartlyPurged(old(contents), old(roots), contents, roots, l.bySystem, gone, updated, todo)
        invariant SameOrigins(old(roots), roots)
        decreases todo
      {
        var s :| s in todo;
        var pushed := PurgeNext(s, l, gone, updated, now, old(contents), old(roots), todo);
        if pushed.Err? {
          PurgedIsRemoved(
            old(contents), old(roots), contents, roots, l, gone, updated, todo, targets, old(reg.collision.None?));
          return Err(pushed.error), Remove(l.bySystem.Keys - todo, gone);
        }
        todo := todo - {s};
      }
      PurgedIsRemoved(
        old(contents), old(roots), contents, roots, l, gone, updated, todo, targets, old(reg.collision.None?));
      r, change := Ok(()), Remove(l.bySystem.Keys - todo, gone);
    }

    /** Loads the targets and evaluates the selector on all their entries; no result if nothing is picked. */
    method PlanPurge(targets: set<SystemArch>, selector: CacheSelector, limits: Limits)
      returns (r: Result<Option<PurgeResult>, StoreError>, l: Loaded)
      requires Valid()
      ensures r.Ok? ==> LoadedFrom(targets, roots, contents, reg.collision.None?, l)
      ensures r.Ok? && r.value.Some? ==>
                Readable(l.all) && PurgeAnswer(reg.x, l.all, l.gcRoots, selector, r.value.value) && r.value.value.purged != map[]
    {
      l := Loaded(map[], map[], map[]);
      var loaded := LoadAll(targets, limits);
      if loaded.Err? {
        return Err(loaded.error), l;
      }
      l := loaded.value;
      if l.all == map[] {
        return Ok(None), l;
      }
      var evaluated := EvaluateCachePurge(reg.x, l.all, l.gcRoots, selector);
      if evaluated.Err? {
        return Err(Rejected), l;
      }
      r := Ok(if evaluated.value.purged == map[] then None else Some(evaluated.value));
    }

    /** `run_purge`: load, evaluate, and unless it is a preview re-compact every architecture. */
    method Purge(targets: set<SystemArch>, selector: CacheSelector, dryRun: bool, now: string, limits: Limits)
      returns (r: Result<PurgeOutcome, StoreError>, ghost l: Loaded, ghost change: Change)
      requires Valid()
      modifies this, reg
      ensures Valid() && Extends(old(reg.blobs), reg.blobs) && (reg.collision.None? ==> old(reg.collision).None?)
      ensures r.Ok? && !r.value.Untouched? ==>
                && LoadedFrom(targets, old(roots), old(contents), reg.collision.None?, l)
                && Readable(l.all) && PurgeAnswer(reg.x, l.all, l.gcRoots, selector, r.value.result)
                && r.value.result.purged != map[] && (r.value.Preview? <==> dryRun)
      ensures r.Ok? && !r.value.Published? ==> unchanged(this)
      ensures SameOrigins(old(roots), roots)
      ensures r.Ok? && r.value.Published? ==>
                && change == Remove(l.bySystem.Keys, r.value.result.purged.Keys)
                && PartlyPurged(old(contents), old(roots), contents, roots, l.bySystem, r.value.result.purged.Keys,
                                r.value.result.roots, {})
      ensures change.Remove? && change.systems <= targets && (dryRun ==> change.systems == {})
      ensures reg.collision.None? ==> contents == Apply(old(contents), change)
      ensures change.systems != {} ==>
                Evaluated(reg.x, reg.collision.None?, old(contents), PurgeStep(targets, selector, dryRun),
                          Logged(change, old(roots), l))
    {
      change := Remove({}, {});
      NothingRemoved(contents);
      SameOriginsReflexive(roots);
      var plan, loaded := PlanPurge(targets, selector, limits);
      l := loaded;
      if plan.Err? {
        return Err(plan.error), l, change;
      }
      if plan.value.None? {
        return Ok(Untouched), l, change;
      }
      var result := plan.value.value;
      if dryRun {
        return Ok(Preview(result)), l, change;
      }
      var pushed;
      pushed, change := PurgeEach(loaded, result.purged.Keys, result.roots, now, targets);
      if change.systems != {} {
        PurgedArePicked(
          reg.x, old(reg.collision.None?), reg.collision.None?, old(contents), PurgeStep(targets, selector, dryRun),
          Logged(change, old(roots), l), result);
      }
      r := if pushed.Ok? then Ok(Published(result)) else Err(pushed.error);
    }
  }

  method RunStep(archive: Archive, step: Step, now: string, limits: Limits) returns (ghost e: Logged)
    requires archive.Valid() && (step.PromoteStep? ==> AllHashes(step.entries))
    modifies archive, archive.reg
    ensures archive.Valid() && Extends(old(archive.reg.blobs), archive.reg.blobs)
    ensures archive.reg.collision.None? ==> old(archive.reg.collision).None?
    ensures Explains(archive.reg.x, archive.reg.collision.None?, old(archive.contents), step, e)
    ensures e.published == old(archive.roots)
    ensures archive.reg.collision.None? ==> archive.contents == Apply(old(archive.contents), e.change)
  {
    ghost var change := Remove({}, {});
    ghost var loaded := Loaded(map[], map[], map[]);
    NothingRemoved(archive.contents);
    match step {
      case PromoteStep(system, entries, gcRoots, publicKey, run) =>
        var r := archive.Promote(system, entries, gcRoots, publicKey, now, run, limits);
        change := if r.Ok? then Overwrite(system, entries) else change;
      case PurgeStep(targets, selector, dryRun) =>
        var r, l, removed := archive.Purge(targets, selector, dryRun, now, limits);
        change, loaded := removed, l;
    }
    e := Logged(change, old(archive.roots), loaded);
  }

  /**
   Any run of promotes and purges, failing or not, leaves valid roots that stand for the replayed
   maps, and every purge removed what its selector picks from the maps at that point.
   */
  method RunAll(archive: Archive, steps: seq<Step>, now: string, limits: Limits) returns (ghost log: seq<Logged>)
    requires archive.Valid() && forall i | 0 <= i < |steps| && steps[i].PromoteStep? :: AllHashes(steps[i].entries)
    modifies archive, archive.reg
    ensures archive.Valid() && Extends(old(archive.reg.blobs), archive.reg.blobs)
    ensures |log| == |steps| && AllExplained(archive.reg.x, archive.reg.collision.None?, old(archive.contents), steps, log)
    ensures archive.reg.collision.None? ==> archive.contents == Replay(old(archive.contents), log)
  {
    log := [];
    for i := 0 to |steps|
      invariant archive.Valid() && Extends(old(archive.reg.blobs), archive.reg.blobs)
      invariant archive.reg.collision.None? ==> old(archive.reg.collision).None?
      invariant |log| == i && AllExplained(archive.reg.x, archive.reg.collision.None?, old(archive.contents), steps, log)
      invariant archive.reg.collision.None? ==> archive.contents == Replay(old(archive.contents), log)
    {
      ghost var clean, was := archive.reg.collision.None?, archive.contents;
      ghost var e := RunStep(archive, steps[i], now, limits);
      ExplainedNext(
        archive.reg.x, clean, archive.reg.collision.None?, old(archive.contents), was, steps, log, e);
      ReplayNext(old(archive.contents), log, e);
      log := log + [e];
    }
  }
}
