/** Every interleaving of the worker's tasks keeps its caches coherent and its answers exact. */
module WorkerLaws {
  import opened Basics
  import opened Types
  import opened Merkle
  import opened Root
  import opened Store
  import opened Index
  import opened Coherence
  import opened Worker

  // --- The invariant ---------------------------------------------------------------------------

  ghost predicate Absent(c: Codec, blobs: Blobs, root: ArchRoot, h: StoreHash) {
    |root.shards| == NUM_SHARDS && IsStoreHash(h) && Lookup(c, blobs, root.shards, h) == None
  }

  /** No entry of the shard has the NAR name. */
  ghost predicate Unnamed(c: Codec, blobs: Blobs, root: ArchRoot, id: nat, name: string) {
    && |root.shards| == NUM_SHARDS
    && forall h | IsStoreHash(h) && ShardId(h) == id && Lookup(c, blobs, root.shards, h).Some? ::
         Lookup(c, blobs, root.shards, h).value.meta.narBasename != name
  }

  /** Nothing the goal could mean is in the shard it is routed to. */
  ghost predicate Missing(c: Codec, blobs: Blobs, goal: Goal, root: ArchRoot) {
    match goal
    case NarInfo(h) => Absent(c, blobs, root, h)
    case NarDigest(name, routed) => routed.Some? && |routed.value| >= 2 && name != "" ==> Unnamed(c, blobs, root, ShardId(routed.value), name)
    case Warm(_) => true
  }

  /** An answer says exactly what the root it was read from binds. */
  ghost predicate Correct(c: Codec, blobs: Blobs, goal: Goal, root: ArchRoot, answer: Answer) {
    && |root.shards| == NUM_SHARDS
    && match answer
       case Found(e) => goal.NarInfo? && IsStoreHash(goal.hash) && Lookup(c, blobs, root.shards, goal.hash) == Some(e)
       case FoundDigest(d) => goal.NarDigest? && BindsNar(c, blobs, root, goal.name, d)
       case NotFound => Missing(c, blobs, goal, root)
  }

  ghost predicate Routed(goal: Goal, root: ArchRoot, d: ShardDescriptor) {
    var id := RoutedShard(goal);
    id.Some? && id.value < |root.shards| && d == root.shards[id.value] && d.blobDigest != ""
  }

  ghost predicate InHand(c: Codec, blobs: Blobs, d: ShardDescriptor, p: ShardPayload, names: map<string, string>) {
    Addressed(c, blobs, d.blobDigest, p) && IsNarLookup(p.entries, names)
  }

  ghost predicate PhaseOk(c: Codec, blobs: Blobs, roots: set<ArchRoot>, goal: Goal, phase: Phase) {
    match phase
    case ReadBaseline => true
    case AwaitKvRoot(_) => true
    case AwaitFallbackRoot => true
    case Failed => true
    case AwaitRoot(_, _, healing) =>
      healing.Some? ==> goal.NarInfo? && Known(roots, healing.value) && Absent(c, blobs, healing.value, goal.hash)
    case StoringRoot(_, root, _) => Known(roots, root)
    case HaveRoot(root, _) => Known(roots, root)
    case Scan(root) => Known(roots, root) && goal.NarDigest? && Missing(c, blobs, goal, root)
    case AwaitKvShard(root, _, d, _) => Known(roots, root) && Routed(goal, root, d)
    case AwaitShard(root, _, d, _) => Known(roots, root) && Routed(goal, root, d)
    case AwaitFallbackShard(root, _, d) => Known(roots, root) && Routed(goal, root, d)
    case StoringShard(root, _, d, _, p, names) => Known(roots, root) && Routed(goal, root, d) && InHand(c, blobs, d, p, names)
    case GotShard(root, _, d, p, names) => Known(roots, root) && Routed(goal, root, d) && InHand(c, blobs, d, p, names)
    case Missed(root, _) => Known(roots, root) && Missing(c, blobs, goal, root)
    case AwaitHead(root) => goal.NarInfo? && Known(roots, root) && Absent(c, blobs, root, goal.hash)
    case Done(root, answer) => Known(roots, root) && Correct(c, blobs, goal, root, answer)
  }

  ghost predicate MemoryOk(c: Codec, blobs: Blobs, roots: set<ArchRoot>, m: Memory) {
    (m.baseline.Some? ==> Known(roots, m.baseline.value.root)) && AllLabelled(c, blobs, m.shards)
  }

  ghost predicate TaskOk(c: Codec, blobs: Blobs, roots: set<ArchRoot>, t: Task) {
    GoalOk(t.goal) && PhaseOk(c, blobs, roots, t.goal, t.phase)
  }

  ghost predicate KvOk(c: Codec, w: World) {
    && (forall e | e in w.kvShards :: Addressed(c, w.blobs, e.0, e.1))
    && (forall e | e in w.kvRoots :: Known(w.roots, e.0))
  }

  /** Memory, key-value store and tasks hold only what digests address and roots that were published. */
  ghost predicate Coherent(c: Codec, w: World) {
    && AllPresent(c, w.blobs, w.roots) && KvOk(c, w)
    && (forall i | i in w.memory :: MemoryOk(c, w.blobs, w.roots, w.memory[i]))
    && (forall k | k in w.tasks :: TaskOk(c, w.blobs, w.roots, w.tasks[k]))
  }

  // --- Frames ----------------------------------------------------------------------------------

  lemma SetPhaseKeeps(c: Codec, w: World, k: nat, phase: Phase)
    requires Coherent(c, w) && k in w.tasks && PhaseOk(c, w.blobs, w.roots, w.tasks[k].goal, phase)
    ensures Coherent(c, SetPhase(w, k, phase))
  {
    var w' := SetPhase(w, k, phase);
    forall j | j in w'.tasks ensures TaskOk(c, w'.blobs, w'.roots, w'.tasks[j]) {
      assert TaskOk(c, w.blobs, w.roots, w.tasks[j]);
    }
  }

  lemma SetMemoryKeeps(c: Codec, w: World, i: nat, m: Memory)
    requires Coherent(c, w) && MemoryOk(c, w.blobs, w.roots, m)
    ensures Coherent(c, SetMemory(w, i, m))
  {
    var w' := SetMemory(w, i, m);
    forall j | j in w'.memory ensures MemoryOk(c, w'.blobs, w'.roots, w'.memory[j]) {
      assert j != i ==> MemoryOk(c, w.blobs, w.roots, w.memory[j]);
    }
    forall k | k in w'.tasks ensures TaskOk(c, w'.blobs, w'.roots, w'.tasks[k]) {
      assert TaskOk(c, w.blobs, w.roots, w.tasks[k]);
    }
  }

  lemma KvKeeps(c: Codec, w: World, w': World)
    requires Coherent(c, w) && w' == w.(kvShards := w'.kvShards, kvRoots := w'.kvRoots) && KvOk(c, w')
    ensures Coherent(c, w')
  {
    forall k | k in w'.tasks ensures TaskOk(c, w'.blobs, w'.roots, w'.tasks[k]) {
      assert TaskOk(c, w.blobs, w.roots, w.tasks[k]);
    }
    forall j | j in w'.memory ensures MemoryOk(c, w'.blobs, w'.roots, w'.memory[j]) {
      assert MemoryOk(c, w.blobs, w.roots, w.memory[j]);
    }
  }

  lemma MemoryIsOk(c: Codec, w: World, i: nat)
    requires Coherent(c, w)
    ensures MemoryOk(c, w.blobs, w.roots, MemoryOf(w, i))
  {
  }

  lemma UpsertKeeps(
    c: Codec, w: World, i: nat, d: ShardDescriptor, p: ShardPayload, names: map<string, string>, at: int)
    requires Coherent(c, w) && InHand(c, w.blobs, d, p, names) && d.blobDigest != ""
    ensures Coherent(c, Upsert(w, i, d, p, names, at))
  {
    MemoryIsOk(c, w, i);
    var m := MemoryOf(w, i);
    var shards := m.shards[d.shardId := CachedShard(p, names, d.blobDigest, at + MEMORY_TTL)];
    assert AllLabelled(c, w.blobs, shards);
    SetMemoryKeeps(c, w, i, m.(shards := shards));
  }

  // --- Steps -----------------------------------------------------------------------------------

  lemma KvRootKeeps(env: Env, w: World, k: nat, now: int, reply: Reply)
    requires Coherent(env.codec, w) && k in w.tasks && CanReply(env, w, w.tasks[k], reply)
    requires w.tasks[k].phase.AwaitKvRoot?
    ensures Coherent(env.codec, StepBaseline(env, w, k, now, reply))
  {
    var c, t := env.codec, w.tasks[k];
    var m := MemoryOf(w, t.isolate);
    MemoryIsOk(c, w, t.isolate);
    if reply.Broken? {
      SetPhaseKeeps(c, w, k, Failed);
    } else if reply.KvRoot? && t.phase.at - reply.at < env.baselineTtl && env.rootAllowed(reply.root) {
      var m' := m.(baseline := Some(CachedRoot(reply.root, t.phase.at + MEMORY_TTL)));
      SetMemoryKeeps(c, w, t.isolate, m');
      SetPhaseKeeps(c, SetMemory(w, t.isolate, m'), k, HaveRoot(reply.root, false));
    } else {
      SetPhaseKeeps(c, w, k, StartRefresh(m, now, None));
    }
  }

  lemma BaselineKeeps(env: Env, w: World, k: nat, now: int, reply: Reply)
    requires Coherent(env.codec, w) && k in w.tasks && CanReply(env, w, w.tasks[k], reply)
    requires w.tasks[k].phase.ReadBaseline? || w.tasks[k].phase.AwaitFallbackRoot?
    ensures Coherent(env.codec, StepBaseline(env, w, k, now, reply))
  {
    var t := w.tasks[k];
    var m := MemoryOf(w, t.isolate);
    MemoryIsOk(env.codec, w, t.isolate);
    if t.phase.ReadBaseline? {
      if m.baseline.Some? { SetPhaseKeeps(env.codec, w, k, HaveRoot(m.baseline.value.root, false)); }
      SetPhaseKeeps(env.codec, w, k, AwaitKvRoot(now));
    } else {
      if reply.KvRoot? { SetPhaseKeeps(env.codec, w, k, HaveRoot(reply.root, false)); }
      SetPhaseKeeps(env.codec, w, k, Failed);
    }
  }

  lemma EvictKeeps(c: Codec, w: World, i: nat, was: Option<ArchRoot>, root: ArchRoot)
    requires Coherent(c, w)
    ensures var m := MemoryOf(w, i); Coherent(c, SetMemory(w, i, m.(shards := EvictStale(m.shards, was, root))))
  {
    var m := MemoryOf(w, i);
    MemoryIsOk(c, w, i);
    var shards := EvictStale(m.shards, was, root);
    assert AllLabelled(c, w.blobs, shards);
    SetMemoryKeeps(c, w, i, m.(shards := shards));
  }

  lemma RootArrives(c: Codec, w: World, k: nat, at: int, root: ArchRoot, healed: bool)
    requires Coherent(c, w) && k in w.tasks && Known(w.roots, root)
    ensures Coherent(c, SetPhase(w.(kvRoots := w.kvRoots + {(root, at)}), k, StoringRoot(at, root, healed)))
  {
    var w1 := w.(kvRoots := w.kvRoots + {(root, at)});
    KvKeeps(c, w, w1);
    SetPhaseKeeps(c, w1, k, StoringRoot(at, root, healed));
  }

  lemma RefreshKeeps(env: Env, w: World, k: nat, reply: Reply)
    requires Coherent(env.codec, w) && k in w.tasks && CanReply(env, w, w.tasks[k], reply) && AtRefresh(w.tasks[k].phase)
    ensures Coherent(env.codec, StepRefresh(env, w, k, reply))
  {
    var c, t := env.codec, w.tasks[k];
    assert TaskOk(c, w.blobs, w.roots, t);
    match t.phase
    case AwaitRoot(at, was, healing) =>
      if reply.RemoteRoot? && env.rootAllowed(reply.root) {
        EvictKeeps(c, w, t.isolate, was, reply.root);
        var m := MemoryOf(w, t.isolate);
        var w1 := SetMemory(w, t.isolate, m.(shards := EvictStale(m.shards, was, reply.root)));
        if reply.stored {
          RootArrives(c, w1, k, at, reply.root, healing.Some?);
        } else {
          SetPhaseKeeps(c, w1, k, RefreshFailed(healing));
        }
      } else {
        SetPhaseKeeps(c, w, k, RefreshFailed(healing));
      }
    case StoringRoot(at, root, healed) =>
      var m' := MemoryOf(w, t.isolate).(baseline := Some(CachedRoot(root, at + MEMORY_TTL)));
      MemoryIsOk(c, w, t.isolate);
      SetMemoryKeeps(c, w, t.isolate, m');
      SetPhaseKeeps(c, SetMemory(w, t.isolate, m'), k, HaveRoot(root, healed));
  }

  lemma EmptyIsMissing(c: Codec, blobs: Blobs, goal: Goal, root: ArchRoot)
    requires Present(c, blobs, root) && GoalOk(goal) && RoutedShard(goal).Some? && RoutedShard(goal).value < NUM_SHARDS
    requires var d := root.shards[RoutedShard(goal).value]; IsEmptyShard(d) || d.blobDigest == ""
    ensures Missing(c, blobs, goal, root)
  {
    var id := RoutedShard(goal).value;
    forall h | IsStoreHash(h) && ShardId(h) == id ensures Lookup(c, blobs, root.shards, h) == None {
      EmptyDecides(c, blobs, root, h);
    }
  }

  /** A payload without the name, in a table that misses no entry, has no entry of that name. */
  lemma NoNameNoEntry(
    c: Codec, blobs: Blobs, root: ArchRoot, id: nat, p: ShardPayload, names: map<string, string>, name: string)
    requires Present(c, blobs, root) && id < NUM_SHARDS && root.shards[id].blobDigest != ""
    requires Addressed(c, blobs, root.shards[id].blobDigest, p) && IsNarLookup(p.entries, names)
    requires name !in names && name != ""
    ensures Unnamed(c, blobs, root, id, name)
  {
    PayloadDecides(c, blobs, root, id, p);
  }

  lemma RoutedKeeps(c: Codec, w: World, k: nat, now: int)
    requires Coherent(c, w) && k in w.tasks && w.tasks[k].phase.HaveRoot?
    ensures Coherent(c, StepRouted(w, k, now, w.tasks[k].phase.root, w.tasks[k].phase.healed))
  {
    var t := w.tasks[k];
    var root, healed := t.phase.root, t.phase.healed;
    var m := MemoryOf(w, t.isolate);
    MemoryIsOk(c, w, t.isolate);
    assert TaskOk(c, w.blobs, w.roots, t);
    KnownIsPresent(c, w.blobs, w.roots, root);
    var id := RoutedShard(t.goal);
    if id.None? || id.value >= |root.shards| {
      SetPhaseKeeps(c, w, k, Missed(root, healed));
    } else {
      var d := root.shards[id.value];
      if IsEmptyShard(d) || d.blobDigest == "" {
        EmptyIsMissing(c, w.blobs, t.goal, root);
        SetPhaseKeeps(c, w, k, Missed(root, healed));
      } else if d.shardId in m.shards && Fresh(m.shards[d.shardId], d, now) {
        assert Labelled(c, w.blobs, m.shards[d.shardId]);
        SetPhaseKeeps(c, w, k, GotShard(root, healed, d, m.shards[d.shardId].payload, m.shards[d.shardId].names));
      } else {
        SetPhaseKeeps(c, w, k, AwaitKvShard(root, healed, d, now));
      }
    }
  }

  lemma KvShardKeeps(env: Env, w: World, k: nat, reply: Reply)
    requires Coherent(env.codec, w) && k in w.tasks && CanReply(env, w, w.tasks[k], reply)
    requires w.tasks[k].phase.AwaitKvShard? || w.tasks[k].phase.AwaitFallbackShard?
    ensures Coherent(env.codec, StepShard(env, w, k, reply))
  {
    var c, t := env.codec, w.tasks[k];
    assert TaskOk(c, w.blobs, w.roots, t);
    match t.phase
    case AwaitKvShard(root, healed, d, at) =>
      if reply.KvShard? && env.payloadAllowed(reply.payload, d.shardId) {
        UpsertKeeps(c, w, t.isolate, d, reply.payload, reply.names, at);
        SetPhaseKeeps(c, Upsert(w, t.isolate, d, reply.payload, reply.names, at), k,
                      GotShard(root, healed, d, reply.payload, reply.names));
      } else {
        SetPhaseKeeps(c, w, k, AwaitShard(root, healed, d, at));
      }
    case AwaitFallbackShard(root, healed, d) =>
      if reply.KvShard? && env.payloadAllowed(reply.payload, d.shardId) {
        SetPhaseKeeps(c, w, k, GotShard(root, healed, d, reply.payload, reply.names));
      } else {
        SetPhaseKeeps(c, w, k, Failed);
      }
    case _ =>
  }

  lemma RemoteShardKeeps(env: Env, w: World, k: nat, reply: Reply)
    requires Coherent(env.codec, w) && k in w.tasks && CanReply(env, w, w.tasks[k], reply)
    requires w.tasks[k].phase.AwaitShard?
    ensures Coherent(env.codec, StepShard(env, w, k, reply))
  {
    var c, t := env.codec, w.tasks[k];
    assert TaskOk(c, w.blobs, w.roots, t);
    var d := t.phase.d;
    if reply.RemoteShard? && !reply.stored {
      SetPhaseKeeps(c, w, k, Failed);
    } else if reply.RemoteShard? {
      var w1 := w.(kvShards := w.kvShards + {(d.blobDigest, reply.payload)});
      KvKeeps(c, w, w1);
      SetPhaseKeeps(c, w1, k, StoringShard(t.phase.root, t.phase.healed, d, t.phase.at, reply.payload, reply.names));
    } else {
      SetPhaseKeeps(c, w, k, AwaitFallbackShard(t.phase.root, t.phase.healed, d));
    }
  }

  lemma StoringShardKeeps(env: Env, w: World, k: nat, reply: Reply)
    requires Coherent(env.codec, w) && k in w.tasks && w.tasks[k].phase.StoringShard?
    ensures Coherent(env.codec, StepShard(env, w, k, reply))
  {
    var c, t := env.codec, w.tasks[k];
    var p := t.phase;
    assert TaskOk(c, w.blobs, w.roots, t);
    UpsertKeeps(c, w, t.isolate, p.d, p.payload, p.names, p.at);
    SetPhaseKeeps(c, Upsert(w, t.isolate, p.d, p.payload, p.names, p.at), k,
                  GotShard(p.root, p.healed, p.d, p.payload, p.names));
  }

  /** A shard in hand answers the goal exactly. */
  lemma ConcludeIsOk(
    c: Codec, blobs: Blobs, roots: set<ArchRoot>, goal: Goal, root: ArchRoot, healed: bool, d: ShardDescriptor,
    p: ShardPayload, names: map<string, string>)
    requires AllPresent(c, blobs, roots) && Known(roots, root) && GoalOk(goal)
    requires Routed(goal, root, d) && InHand(c, blobs, d, p, names)
    ensures PhaseOk(c, blobs, roots, goal, Conclude(goal, root, healed, p, names))
  {
    KnownIsPresent(c, blobs, roots, root);
    var id := RoutedShard(goal).value;
    PayloadDecides(c, blobs, root, id, p);
    if goal.NarDigest? && goal.name in names {
      NameDecides(c, blobs, root, id, p, names, goal.name);
    } else if goal.NarDigest? && goal.name != "" {
      NoNameNoEntry(c, blobs, root, id, p, names, goal.name);
    }
  }

  lemma RevalidateKeeps(c: Codec, w: World, k: nat, now: int)
    requires Coherent(c, w) && k in w.tasks && w.tasks[k].phase.Missed? && w.tasks[k].goal.NarInfo?
    ensures var t := w.tasks[k];
            var m := MemoryOf(w, t.isolate);
            Coherent(c, SetPhase(SetMemory(w, t.isolate, m.(lastRevalidate := now)), k, AwaitHead(t.phase.root)))
  {
    var t := w.tasks[k];
    var m := MemoryOf(w, t.isolate);
    MemoryIsOk(c, w, t.isolate);
    assert TaskOk(c, w.blobs, w.roots, t);
    SetMemoryKeeps(c, w, t.isolate, m.(lastRevalidate := now));
    SetPhaseKeeps(c, SetMemory(w, t.isolate, m.(lastRevalidate := now)), k, AwaitHead(t.phase.root));
  }

  lemma MissKeeps(c: Codec, w: World, k: nat, now: int)
    requires Coherent(c, w) && k in w.tasks && w.tasks[k].phase.Missed?
    ensures Coherent(c, StepMiss(w, k, now, w.tasks[k].phase.root, w.tasks[k].phase.healed))
  {
    var t := w.tasks[k];
    var root := t.phase.root;
    assert TaskOk(c, w.blobs, w.roots, t);
    KnownIsPresent(c, w.blobs, w.roots, root);
    if t.goal.NarDigest? {
      SetPhaseKeeps(c, w, k, Scan(root));
    } else {
      if t.goal.NarInfo? { RevalidateKeeps(c, w, k, now); }
      SetPhaseKeeps(c, w, k, Done(root, NotFound));
    }
  }

  /** A scanned shard counts only under the digest the root gives it. */
  lemma ScanKeeps(c: Codec, w: World, k: nat, reply: Reply)
    requires Coherent(c, w) && k in w.tasks && w.tasks[k].phase.Scan?
    ensures Coherent(c, StepScan(w, k, w.tasks[k].phase.root, reply))
  {
    var t := w.tasks[k];
    var root := t.phase.root;
    var m := MemoryOf(w, t.isolate);
    MemoryIsOk(c, w, t.isolate);
    assert TaskOk(c, w.blobs, w.roots, t);
    KnownIsPresent(c, w.blobs, w.roots, root);
    if reply.Hit? && ScanHit(m, root, t.goal.name, reply.shard) {
      var e := m.shards[reply.shard];
      assert Labelled(c, w.blobs, e);
      NameDecides(c, w.blobs, root, reply.shard, e.payload, e.names, t.goal.name);
      SetPhaseKeeps(c, w, k, Done(root, FoundDigest(e.names[t.goal.name])));
    } else {
      SetPhaseKeeps(c, w, k, Done(root, NotFound));
    }
  }

  lemma HeadKeeps(env: Env, w: World, k: nat, now: int, reply: Reply)
    requires Coherent(env.codec, w) && k in w.tasks && (w.tasks[k].phase.AwaitHead? || w.tasks[k].phase.GotShard?)
    ensures Coherent(env.codec, StepTask(env, w, k, now, reply))
  {
    var c, t := env.codec, w.tasks[k];
    assert TaskOk(c, w.blobs, w.roots, t);
    match t.phase
    case GotShard(root, healed, d, p, names) =>
      ConcludeIsOk(c, w.blobs, w.roots, t.goal, root, healed, d, p, names);
      SetPhaseKeeps(c, w, k, Conclude(t.goal, root, healed, p, names));
    case AwaitHead(root) =>
      KnownIsPresent(c, w.blobs, w.roots, root);
      SetPhaseKeeps(c, w, k, StartRefresh(MemoryOf(w, t.isolate), now, Some(root)));
      SetPhaseKeeps(c, w, k, Done(root, NotFound));
    case _ =>
  }

  predicate AtRoot(p: Phase) {
    AtBaseline(p) || AtRefresh(p)
  }

  lemma RootTaskKeeps(env: Env, w: World, k: nat, now: int, reply: Reply)
    requires Coherent(env.codec, w) && k in w.tasks && CanReply(env, w, w.tasks[k], reply) && AtRoot(w.tasks[k].phase)
    ensures Coherent(env.codec, StepTask(env, w, k, now, reply))
  {
    var p := w.tasks[k].phase;
    if p.AwaitRoot? || p.StoringRoot? {
      RefreshKeeps(env, w, k, reply);
    } else if p.AwaitKvRoot? {
      KvRootKeeps(env, w, k, now, reply);
    } else {
      BaselineKeeps(env, w, k, now, reply);
    }
  }

  lemma ShardTaskKeeps(env: Env, w: World, k: nat, now: int, reply: Reply)
    requires Coherent(env.codec, w) && k in w.tasks && CanReply(env, w, w.tasks[k], reply) && AtShard(w.tasks[k].phase)
    ensures Coherent(env.codec, StepTask(env, w, k, now, reply))
  {
    var p := w.tasks[k].phase;
    if p.AwaitShard? {
      RemoteShardKeeps(env, w, k, reply);
    } else if p.StoringShard? {
      StoringShardKeeps(env, w, k, reply);
    } else {
      KvShardKeeps(env, w, k, reply);
    }
  }

  lemma TaskKeeps(env: Env, w: World, k: nat, now: int, reply: Reply)
    requires Coherent(env.codec, w) && k in w.tasks && CanReply(env, w, w.tasks[k], reply)
    ensures Coherent(env.codec, StepTask(env, w, k, now, reply))
  {
    var p := w.tasks[k].phase;
    if AtRoot(p) {
      RootTaskKeeps(env, w, k, now, reply);
    } else if AtShard(p) {
      ShardTaskKeeps(env, w, k, now, reply);
    } else if p.HaveRoot? {
      RoutedKeeps(env.codec, w, k, now);
    } else if p.Missed? {
      MissKeeps(env.codec, w, k, now);
    } else if p.Scan? {
      ScanKeeps(env.codec, w, k, reply);
    } else if p.GotShard? || p.AwaitHead? {
      HeadKeeps(env, w, k, now, reply);
    }
  }

  // --- Publishing ------------------------------------------------------------------------------

  lemma BindsNarExtends(c: Codec, a: Blobs, b: Blobs, root: ArchRoot, name: string, digest: string)
    requires Present(c, a, root) && Extends(a, b) && BindsNar(c, a, root, name, digest)
    ensures BindsNar(c, b, root, name, digest)
  {
    PresentExtends(c, a, b, root);
    var h :| IsStoreHash(h) && Lookup(c, a, root.shards, h).Some? && Names(Lookup(c, a, root.shards, h).value, name, digest);
    assert Lookup(c, b, root.shards, h) == Lookup(c, a, root.shards, h);
  }

  lemma MissingExtends(c: Codec, a: Blobs, b: Blobs, goal: Goal, root: ArchRoot)
    requires Present(c, a, root) && Extends(a, b) && Missing(c, a, goal, root)
    ensures Missing(c, b, goal, root)
  {
    PresentExtends(c, a, b, root);
  }

  lemma CorrectExtends(c: Codec, a: Blobs, b: Blobs, goal: Goal, root: ArchRoot, answer: Answer)
    requires Present(c, a, root) && Extends(a, b) && Correct(c, a, goal, root, answer)
    ensures Correct(c, b, goal, root, answer)
  {
    PresentExtends(c, a, b, root);
    if answer.NotFound? { MissingExtends(c, a, b, goal, root); }
    if answer.FoundDigest? { BindsNarExtends(c, a, b, root, goal.name, answer.digest); }
  }

  lemma AbsentExtends(c: Codec, a: Blobs, b: Blobs, root: ArchRoot, h: StoreHash)
    requires Present(c, a, root) && Extends(a, b) && Absent(c, a, root, h)
    ensures Absent(c, b, root, h)
  {
    PresentExtends(c, a, b, root);
  }

  lemma PhaseExtends(c: Codec, a: Blobs, b: Blobs, roots: set<ArchRoot>, more: set<ArchRoot>, goal: Goal, phase: Phase)
    requires AllPresent(c, a, roots) && Extends(a, b) && roots <= more && PhaseOk(c, a, roots, goal, phase)
    ensures PhaseOk(c, b, more, goal, phase)
  {
    match phase
    case Done(root, answer) => KnownIsPresent(c, a, roots, root); CorrectExtends(c, a, b, goal, root, answer);
    case Missed(root, _) => KnownIsPresent(c, a, roots, root); MissingExtends(c, a, b, goal, root);
    case Scan(root) => KnownIsPresent(c, a, roots, root); MissingExtends(c, a, b, goal, root);
    case AwaitHead(root) => KnownIsPresent(c, a, roots, root); AbsentExtends(c, a, b, root, goal.hash);
    case AwaitRoot(_, _, healing) =>
      if healing.Some? {
        KnownIsPresent(c, a, roots, healing.value);
        AbsentExtends(c, a, b, healing.value, goal.hash);
      }
    case _ =>
  }

  lemma PublishKeeps(env: Env, w: World, blobs: Blobs, root: ArchRoot)
    requires Coherent(env.codec, w) && Allowed(env, w, Publish(blobs, root))
    ensures Coherent(env.codec, w.(blobs := blobs, roots := w.roots + {root}))
  {
    var c, more := env.codec, w.roots + {root};
    PublishedIsPresent(env.x, c, blobs, root);
    forall r | r in more ensures Present(c, blobs, r) {
      if r != root { PresentExtends(c, w.blobs, blobs, r); }
    }
    forall k | k in w.tasks ensures TaskOk(c, blobs, more, w.tasks[k]) {
      assert TaskOk(c, w.blobs, w.roots, w.tasks[k]);
      PhaseExtends(c, w.blobs, blobs, w.roots, more, w.tasks[k].goal, w.tasks[k].phase);
    }
    forall i | i in w.memory ensures MemoryOk(c, blobs, more, w.memory[i]) {
      MemoryExtends(c, w.blobs, blobs, w.roots, more, w.memory[i]);
    }
  }

  lemma MemoryExtends(c: Codec, a: Blobs, b: Blobs, roots: set<ArchRoot>, more: set<ArchRoot>, m: Memory)
    requires MemoryOk(c, a, roots, m) && Extends(a, b) && roots <= more
    ensures MemoryOk(c, b, more, m)
  {
    forall id | id in m.shards ensures Labelled(c, b, m.shards[id]) {
      assert Labelled(c, a, m.shards[id]);
    }
  }

  // --- Runs ------------------------------------------------------------------------------------

  lemma EventKeeps(env: Env, w: World, e: Event)
    requires Coherent(env.codec, w) && Allowed(env, w, e)
    ensures Coherent(env.codec, Next(env, w, e))
  {
    var c := env.codec;
    match e
    case Publish(blobs, root) => PublishKeeps(env, w, blobs, root);
    case Resume(k, now, reply) => TaskKeeps(env, w, k, now, reply);
    case Start(k, isolate, goal, now) =>
      var w' := Next(env, w, e);
      forall j | j in w'.tasks ensures TaskOk(c, w'.blobs, w'.roots, w'.tasks[j]) {
        assert j != k ==> TaskOk(c, w.blobs, w.roots, w.tasks[j]);
      }
    case Evict(isolate, ids) =>
      var m := MemoryOf(w, isolate);
      MemoryIsOk(c, w, isolate);
      assert AllLabelled(c, w.blobs, m.shards - ids);
      SetMemoryKeeps(c, w, isolate, m.(shards := m.shards - ids));
    case Clear(isolate) =>
      SetMemoryKeeps(c, w, isolate, MemoryOf(w, isolate).(baseline := None, shards := map[]));
  }

  lemma {:induction false} RunsStayCoherent(env: Env, ws: seq<World>, es: seq<Event>, n: nat)
    requires IsRun(env, ws, es) && n < |ws|
    ensures Coherent(env.codec, ws[n])
  {
    if n > 0 {
      RunsStayCoherent(env, ws, es, n - 1);
      EventKeeps(env, ws[n - 1], es[n - 1]);
    }
  }

  /** Whatever else runs, a finished lookup agrees with a root that was published, or a blank one. */
  lemma AnswersAreExact(env: Env, ws: seq<World>, es: seq<Event>, n: nat, k: nat)
    requires IsRun(env, ws, es) && n < |ws| && k in ws[n].tasks && ws[n].tasks[k].phase.Done?
    ensures var t := ws[n].tasks[k];
            Known(ws[n].roots, t.phase.root) && Correct(env.codec, ws[n].blobs, t.goal, t.phase.root, t.phase.answer)
  {
    RunsStayCoherent(env, ws, es, n);
    assert TaskOk(env.codec, ws[n].blobs, ws[n].roots, ws[n].tasks[k]);
  }

  /** Every cached or stored shard holds what its digest addresses. */
  lemma LabelsAreTrue(env: Env, ws: seq<World>, es: seq<Event>, n: nat)
    requires IsRun(env, ws, es) && n < |ws|
    ensures forall i, id | i in ws[n].memory && id in ws[n].memory[i].shards ::
              var e := ws[n].memory[i].shards[id]; Addressed(env.codec, ws[n].blobs, e.blobDigest, e.payload)
    ensures forall e | e in ws[n].kvShards :: Addressed(env.codec, ws[n].blobs, e.0, e.1)
  {
    RunsStayCoherent(env, ws, es, n);
    forall i, id | i in ws[n].memory && id in ws[n].memory[i].shards
      ensures var e := ws[n].memory[i].shards[id]; Addressed(env.codec, ws[n].blobs, e.blobDigest, e.payload)
    {
      assert MemoryOk(env.codec, ws[n].blobs, ws[n].roots, ws[n].memory[i]);
      assert Labelled(env.codec, ws[n].blobs, ws[n].memory[i].shards[id]);
    }
  }
}
