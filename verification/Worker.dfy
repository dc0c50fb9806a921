/**
 The worker's lookups as tasks that run interleaved: each stops at every await, and between
 two of its steps any number of steps of other tasks, publications and evictions may happen.
 Isolates keep their own memory (L1) and share one key-value store (L2), whose reads may
 return any earlier write or nothing, and the registry (L3).
 */
module Worker {
  import opened Basics
  import opened Types
  import opened Merkle
  import opened Root
  import opened Store
  import opened Index
  import opened Coherence

  const MEMORY_TTL: int := 30000
  const REVALIDATE_DEBOUNCE: int := 2000

  /** The platform and the two validators, which safety does not rest on. */
  datatype Env = Env(
    x: Platform, codec: Codec, rootAllowed: ArchRoot -> bool, payloadAllowed: (ShardPayload, nat) -> bool,
    baselineTtl: int)

  datatype CachedRoot = CachedRoot(root: ArchRoot, expiresAt: int)

  /** `WorkerState` of one isolate. */
  datatype Memory = Memory(baseline: Option<CachedRoot>, shards: map<nat, CachedShard>, lastRevalidate: int)

  datatype Goal =
    | NarInfo(hash: StoreHash)
    | NarDigest(name: string, routed: Option<StoreHash>)
    | Warm(shard: nat)

  datatype Answer = Found(entry: IndexEntry) | FoundDigest(digest: string) | NotFound

  /** Where a task stands; the times are those the code read before it last stopped. */
  datatype Phase =
    | ReadBaseline
    | AwaitKvRoot(at: int)
    | AwaitRoot(at: int, was: Option<ArchRoot>, healing: Option<ArchRoot>)
    | StoringRoot(at: int, root: ArchRoot, healed: bool)
    | AwaitFallbackRoot
    | HaveRoot(root: ArchRoot, healed: bool)
    | AwaitKvShard(root: ArchRoot, healed: bool, d: ShardDescriptor, at: int)
    | AwaitShard(root: ArchRoot, healed: bool, d: ShardDescriptor, at: int)
    | StoringShard(root: ArchRoot, healed: bool, d: ShardDescriptor, at: int, payload: ShardPayload, names: map<string, string>)
    | AwaitFallbackShard(root: ArchRoot, healed: bool, d: ShardDescriptor)
    | GotShard(root: ArchRoot, healed: bool, d: ShardDescriptor, payload: ShardPayload, names: map<string, string>)
    | Missed(root: ArchRoot, healed: bool)
    | AwaitHead(root: ArchRoot)
    | Scan(root: ArchRoot)
    | Done(root: ArchRoot, answer: Answer)
    | Failed

  datatype Task = Task(isolate: nat, goal: Goal, phase: Phase)

  datatype World = World(
    blobs: Blobs, roots: set<ArchRoot>, memory: map<nat, Memory>, kvShards: set<(string, ShardPayload)>,
    kvRoots: set<(ArchRoot, int)>, tasks: map<nat, Task>)

  /**
   What the environment answers to the operation a task waits for. `Broken` is a missing
   key-value binding, and `stored` says whether the write to that store was accepted.
   */
  datatype Reply =
    | Nothing
    | KvRoot(root: ArchRoot, at: int)
    | KvShard(payload: ShardPayload, names: map<string, string>)
    | Broken
    | RemoteRoot(root: ArchRoot, stored: bool)
    | RemoteShard(payload: ShardPayload, names: map<string, string>, stored: bool)
    | HeadChanged
    | Hit(shard: nat)

  datatype Event =
    | Publish(blobs: Blobs, root: ArchRoot)
    | Start(task: nat, isolate: nat, goal: Goal, now: int)
    | Resume(task: nat, now: int, reply: Reply)
    | Evict(isolate: nat, ids: set<nat>)
    | Clear(isolate: nat)

  // --- Steps -----------------------------------------------------------------------------------

  function MemoryOf(w: World, isolate: nat): Memory {
    if isolate in w.memory then w.memory[isolate] else Memory(None, map[], 0)
  }

  function SetMemory(w: World, isolate: nat, m: Memory): World {
    w.(memory := w.memory[isolate := m])
  }

  function SetPhase(w: World, k: nat, phase: Phase): World
    requires k in w.tasks
  {
    w.(tasks := w.tasks[k := w.tasks[k].(phase := phase)])
  }

  function RoutedShard(goal: Goal): Option<nat> {
    match goal
    case NarInfo(h) => if |h| >= 2 then Some(ShardId(h)) else None
    case NarDigest(_, Some(h)) => if |h| >= 2 then Some(ShardId(h)) else None
    case NarDigest(_, None) => None
    case Warm(id) => Some(id)
  }

  /** Shards whose descriptors differ between two roots are dropped, unless the roots' hashes agree. */
  function EvictStale(shards: map<nat, CachedShard>, was: Option<ArchRoot>, root: ArchRoot): map<nat, CachedShard> {
    if was.None? || was.value.merkleRoot == root.merkleRoot then shards
    else map id | id in shards && id < |was.value.shards| && id < |root.shards| && was.value.shards[id] == root.shards[id]
               :: shards[id]
  }

  predicate Fresh(e: CachedShard, d: ShardDescriptor, now: int) {
    e.blobDigest == d.blobDigest && now < e.expiresAt
  }

  predicate ScanHit(m: Memory, root: ArchRoot, name: string, id: nat) {
    && id in m.shards && id < |root.shards| && root.shards[id].blobDigest == m.shards[id].blobDigest
    && name in m.shards[id].names
  }

  /** What the environment may answer: it is honest about what was written, and may fail at any time. */
  ghost predicate CanReply(env: Env, w: World, t: Task, reply: Reply) {
    match reply
    case Nothing =>
      t.phase.Scan? && t.goal.NarDigest? ==>
        forall id: nat :: !ScanHit(MemoryOf(w, t.isolate), t.phase.root, t.goal.name, id)
    case KvRoot(root, at) => (t.phase.AwaitKvRoot? || t.phase.AwaitFallbackRoot?) && (root, at) in w.kvRoots
    case KvShard(p, names) =>
      && (t.phase.AwaitKvShard? || t.phase.AwaitFallbackShard?) && (t.phase.d.blobDigest, p) in w.kvShards
      && IsNarLookup(p.entries, names)
    case Broken => t.phase.AwaitKvRoot?
    case RemoteRoot(root, _) => t.phase.AwaitRoot? && Known(w.roots, root)
    case RemoteShard(p, names, _) =>
      t.phase.AwaitShard? && Addressed(env.codec, w.blobs, t.phase.d.blobDigest, p) && IsNarLookup(p.entries, names)
    case HeadChanged => t.phase.AwaitHead?
    case Hit(id) => t.phase.Scan? && t.goal.NarDigest? && ScanHit(MemoryOf(w, t.isolate), t.phase.root, t.goal.name, id)
  }

  predicate AtBaseline(p: Phase) {
    p.ReadBaseline? || p.AwaitKvRoot? || p.AwaitFallbackRoot?
  }

  predicate AtRefresh(p: Phase) {
    p.AwaitRoot? || p.StoringRoot?
  }

  predicate AtShard(p: Phase) {
    p.AwaitKvShard? || p.AwaitFallbackShard? || p.AwaitShard? || p.StoringShard?
  }

  /** `get_baseline_data`, up to the next await. */
  function StepBaseline(env: Env, w: World, k: nat, now: int, reply: Reply): World
    requires k in w.tasks && AtBaseline(w.tasks[k].phase)
  {
    var t := w.tasks[k];
    var m := MemoryOf(w, t.isolate);
    match t.phase
    case ReadBaseline =>
      if m.baseline.Some? && now < m.baseline.value.expiresAt then SetPhase(w, k, HaveRoot(m.baseline.value.root, false))
      else SetPhase(w, k, AwaitKvRoot(now))
    case AwaitKvRoot(at) =>
      if reply.Broken? then SetPhase(w, k, Failed)
      else if reply.KvRoot? && at - reply.at < env.baselineTtl && env.rootAllowed(reply.root)
      then SetPhase(SetMemory(w, t.isolate, m.(baseline := Some(CachedRoot(reply.root, at + MEMORY_TTL)))), k,
                    HaveRoot(reply.root, false))
      else SetPhase(w, k, StartRefresh(m, now, None))
    case AwaitFallbackRoot =>
      if reply.KvRoot? && env.rootAllowed(reply.root) then SetPhase(w, k, HaveRoot(reply.root, false))
      else SetPhase(w, k, Failed)
  }

  function StartRefresh(m: Memory, now: int, healing: Option<ArchRoot>): Phase {
    AwaitRoot(now, if m.baseline.Some? then Some(m.baseline.value.root) else None, healing)
  }

  /** A failed refresh: a lookup that only revalidates keeps its miss, the others try the stored root. */
  function RefreshFailed(healing: Option<ArchRoot>): Phase {
    if healing.Some? then Done(healing.value, NotFound) else AwaitFallbackRoot
  }

  /** `refresh_baseline_from_ghcr`: evict, write to the key-value store, then replace the baseline. */
  function StepRefresh(env: Env, w: World, k: nat, reply: Reply): World
    requires k in w.tasks && AtRefresh(w.tasks[k].phase)
  {
    var t := w.tasks[k];
    var m := MemoryOf(w, t.isolate);
    match t.phase
    case AwaitRoot(at, was, healing) =>
      if reply.RemoteRoot? && env.rootAllowed(reply.root)
      then
        var w' := SetMemory(w, t.isolate, m.(shards := EvictStale(m.shards, was, reply.root)));
        if reply.stored
        then SetPhase(w'.(kvRoots := w'.kvRoots + {(reply.root, at)}), k, StoringRoot(at, reply.root, healing.Some?))
        else SetPhase(w', k, RefreshFailed(healing))
      else SetPhase(w, k, RefreshFailed(healing))
    case StoringRoot(at, root, healed) =>
      SetPhase(SetMemory(w, t.isolate, m.(baseline := Some(CachedRoot(root, at + MEMORY_TTL)))), k, HaveRoot(root, healed))
  }

  /** A lookup with a root in hand: an empty shard is turned away, a fresh cached one is used. */
  function StepRouted(w: World, k: nat, now: int, root: ArchRoot, healed: bool): World
    requires k in w.tasks
  {
    var t := w.tasks[k];
    var m := MemoryOf(w, t.isolate);
    var id := RoutedShard(t.goal);
    if id.None? || id.value >= |root.shards| then SetPhase(w, k, Missed(root, healed))
    else
      var d := root.shards[id.value];
      if IsEmptyShard(d) || d.blobDigest == "" then SetPhase(w, k, Missed(root, healed))
      else if d.shardId in m.shards && Fresh(m.shards[d.shardId], d, now)
      then SetPhase(w, k, GotShard(root, healed, d, m.shards[d.shardId].payload, m.shards[d.shardId].names))
      else SetPhase(w, k, AwaitKvShard(root, healed, d, now))
  }

  function Upsert(w: World, isolate: nat, d: ShardDescriptor, p: ShardPayload, names: map<string, string>, at: int): World {
    var m := MemoryOf(w, isolate);
    SetMemory(w, isolate, m.(shards := m.shards[d.shardId := CachedShard(p, names, d.blobDigest, at + MEMORY_TTL)]))
  }

  /** `get_shard_data` beyond the memory cache. */
  function StepShard(env: Env, w: World, k: nat, reply: Reply): World
    requires k in w.tasks && AtShard(w.tasks[k].phase)
  {
    var t := w.tasks[k];
    match t.phase
    case AwaitKvShard(root, healed, d, at) =>
      if reply.KvShard? && env.payloadAllowed(reply.payload, d.shardId)
      then SetPhase(Upsert(w, t.isolate, d, reply.payload, reply.names, at), k,
                    GotShard(root, healed, d, reply.payload, reply.names))
      else SetPhase(w, k, AwaitShard(root, healed, d, at))
    case AwaitShard(root, healed, d, at) =>
      if reply.RemoteShard? && !reply.stored then SetPhase(w, k, Failed)
      else if reply.RemoteShard?
      then SetPhase(w.(kvShards := w.kvShards + {(d.blobDigest, reply.payload)}), k,
                    StoringShard(root, healed, d, at, reply.payload, reply.names))
      else SetPhase(w, k, AwaitFallbackShard(root, healed, d))
    case StoringShard(root, healed, d, at, p, names) =>
      SetPhase(Upsert(w, t.isolate, d, p, names, at), k, GotShard(root, healed, d, p, names))
    case AwaitFallbackShard(root, healed, d) =>
      if reply.KvShard? && env.payloadAllowed(reply.payload, d.shardId)
      then SetPhase(w, k, GotShard(root, healed, d, reply.payload, reply.names))
      else SetPhase(w, k, Failed)
  }

  /** What a shard in hand means for the goal. */
  function Conclude(goal: Goal, root: ArchRoot, healed: bool, p: ShardPayload, names: map<string, string>): Phase {
    match goal
    case NarInfo(h) => if h in p.entries then Done(root, Found(p.entries[h])) else Missed(root, healed)
    case NarDigest(name, _) => if name in names then Done(root, FoundDigest(names[name])) else Missed(root, healed)
    case Warm(_) => Done(root, NotFound)
  }

  /** After a miss: revalidation at most once per debounce interval, or the scan for a NAR name. */
  function StepMiss(w: World, k: nat, now: int, root: ArchRoot, healed: bool): World
    requires k in w.tasks
  {
    var t := w.tasks[k];
    var m := MemoryOf(w, t.isolate);
    match t.goal
    case NarInfo(_) =>
      if !healed && now - m.lastRevalidate >= REVALIDATE_DEBOUNCE
      then SetPhase(SetMemory(w, t.isolate, m.(lastRevalidate := now)), k, AwaitHead(root))
      else SetPhase(w, k, Done(root, NotFound))
    case NarDigest(_, _) => SetPhase(w, k, Scan(root))
    case Warm(_) => SetPhase(w, k, Done(root, NotFound))
  }

  function StepScan(w: World, k: nat, root: ArchRoot, reply: Reply): World
    requires k in w.tasks
  {
    var t := w.tasks[k];
    var m := MemoryOf(w, t.isolate);
    if reply.Hit? && t.goal.NarDigest? && ScanHit(m, root, t.goal.name, reply.shard)
    then SetPhase(w, k, Done(root, FoundDigest(m.shards[reply.shard].names[t.goal.name])))
    else SetPhase(w, k, Done(root, NotFound))
  }

  function StepTask(env: Env, w: World, k: nat, now: int, reply: Reply): World
    requires k in w.tasks
  {
    var t := w.tasks[k];
    match t.phase
    case HaveRoot(root, healed) => StepRouted(w, k, now, root, healed)
    case GotShard(root, healed, d, p, names) => SetPhase(w, k, Conclude(t.goal, root, healed, p, names))
    case Missed(root, healed) => StepMiss(w, k, now, root, healed)
    case AwaitHead(root) =>
      if reply.HeadChanged? then SetPhase(w, k, StartRefresh(MemoryOf(w, t.isolate), now, Some(root)))
      else SetPhase(w, k, Done(root, NotFound))
    case Scan(root) => StepScan(w, k, root, reply)
    case ReadBaseline => StepBaseline(env, w, k, now, reply)
    case AwaitKvRoot(_) => StepBaseline(env, w, k, now, reply)
    case AwaitFallbackRoot => StepBaseline(env, w, k, now, reply)
    case AwaitRoot(_, _, _) => StepRefresh(env, w, k, reply)
    case StoringRoot(_, _, _) => StepRefresh(env, w, k, reply)
    case Done(_, _) => w
    case Failed => w
    case _ => StepShard(env, w, k, reply)
  }

  /** Which events can happen. */
  ghost predicate Allowed(env: Env, w: World, e: Event) {
    match e
    case Publish(blobs, root) => Extends(w.blobs, blobs) && ShardsOk(env.x, env.codec, blobs, root.shards)
    case Start(k, _, goal, _) => k !in w.tasks && GoalOk(goal)
    case Resume(k, _, reply) => k in w.tasks && CanReply(env, w, w.tasks[k], reply)
    case Evict(_, _) => true
    case Clear(_) => true
  }

  ghost predicate GoalOk(goal: Goal) {
    match goal
    case NarInfo(h) => IsStoreHash(h)
    case NarDigest(_, routed) => routed.Some? ==> IsStoreHash(routed.value)
    case Warm(id) => id < NUM_SHARDS
  }

  ghost function Next(env: Env, w: World, e: Event): World
    requires Allowed(env, w, e)
  {
    match e
    case Publish(blobs, root) => w.(blobs := blobs, roots := w.roots + {root})
    case Start(k, isolate, goal, now) =>
      var phase := if goal.Warm? then StartRefresh(MemoryOf(w, isolate), now, None) else ReadBaseline;
      w.(tasks := w.tasks[k := Task(isolate, goal, phase)])
    case Resume(k, now, reply) => StepTask(env, w, k, now, reply)
    case Evict(isolate, ids) =>
      var m := MemoryOf(w, isolate);
      SetMemory(w, isolate, m.(shards := m.shards - ids))
    case Clear(isolate) => SetMemory(w, isolate, MemoryOf(w, isolate).(baseline := None, shards := map[]))
  }

  // --- Runs ------------------------------------------------------------------------------------

  const INITIAL: World := World(map[], {}, map[], {}, {}, map[])

  /** A run: the worlds before, between and after its events. */
  ghost predicate IsRun(env: Env, ws: seq<World>, es: seq<Event>) {
    && |ws| == |es| + 1 && ws[0] == INITIAL
    && forall i | 0 <= i < |es| :: Allowed(env, ws[i], es[i]) && ws[i + 1] == Next(env, ws[i], es[i])
  }
}
