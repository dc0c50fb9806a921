/**
 The local proxy's lookups as interleaved tasks: a hot table of just built entries, a cached
 baseline with a backup file, a shard cache, and the registry. Unlike the worker, the proxy
 falls back to a blank root and reports an unreachable shard as a miss.
 */
module Proxy {
  import opened Basics
  import opened Types
  import opened Merkle
  import opened Root
  import opened Store
  import opened Index
  import opened Coherence
  import opened Worker

  datatype Answer = Hot(entry: IndexEntry) | Bound(entry: IndexEntry) | Unbound | Unreachable

  datatype ProxyPhase =
    | ReadHot
    | LoadBaseline
    | AwaitRemote
    | AwaitBackup
    | CacheRoot(root: ArchRoot)
    | Route(root: ArchRoot)
    | AwaitBlob(root: ArchRoot, d: ShardDescriptor)
    | Answered(read: Option<ArchRoot>, answer: Answer)

  datatype Query = Query(hash: StoreHash, phase: ProxyPhase)

  datatype State = State(
    blobs: Blobs, roots: set<ArchRoot>, hot: Entries, registered: set<(StoreHash, IndexEntry)>,
    baseline: Option<CachedRoot>, shards: map<nat, CachedShard>, backups: set<ArchRoot>, queries: map<nat, Query>)

  datatype ProxyReply =
    | Silent
    | Root(root: ArchRoot)
    | Backup(root: ArchRoot)
    | Blob(payload: ShardPayload, names: map<string, string>)

  datatype ProxyEvent =
    | Publishes(blobs: Blobs, root: ArchRoot)
    | Register(entries: Entries)
    | Asks(query: nat, hash: StoreHash)
    | Proceeds(query: nat, now: int, reply: ProxyReply, blank: ArchRoot)
    | ForceRefresh
    | Restart

  datatype Config = Config(x: Platform, codec: Codec, rootAllowed: ArchRoot -> bool, ttl: int)

  function Pairs(entries: Entries): set<(StoreHash, IndexEntry)> {
    set h | h in entries :: (h, entries[h])
  }

  function SetQuery(s: State, k: nat, phase: ProxyPhase): State
    requires k in s.queries
  {
    s.(queries := s.queries[k := s.queries[k].(phase := phase)])
  }

  /** What a shard in hand means for the hash. */
  function Judge(h: StoreHash, p: ShardPayload): Answer {
    if h in p.entries then Bound(p.entries[h]) else Unbound
  }

  ghost predicate MayReply(cfg: Config, s: State, q: Query, reply: ProxyReply, blank: ArchRoot) {
    && Blank(blank)
    && match reply
       case Silent => true
       case Root(root) => q.phase.AwaitRemote? && root in s.roots
       case Backup(root) => q.phase.AwaitBackup? && root in s.backups
       case Blob(p, names) =>
         q.phase.AwaitBlob? && Addressed(cfg.codec, s.blobs, q.phase.d.blobDigest, p) && IsNarLookup(p.entries, names)
  }

  predicate AtRoot(p: ProxyPhase) {
    p.LoadBaseline? || p.AwaitRemote? || p.AwaitBackup? || p.CacheRoot?
  }

  /** `get_baseline_data`: eviction compares with the baseline cached when the fetch ends. */
  function StepRoot(cfg: Config, s: State, k: nat, now: int, reply: ProxyReply, blank: ArchRoot): State
    requires k in s.queries && AtRoot(s.queries[k].phase)
  {
    match s.queries[k].phase
    case LoadBaseline =>
      if s.baseline.Some? && s.baseline.value.expiresAt > now then SetQuery(s, k, Route(s.baseline.value.root))
      else SetQuery(s, k, AwaitRemote)
    case AwaitRemote =>
      if reply.Root?
      then
        var was := if s.baseline.Some? then Some(s.baseline.value.root) else None;
        SetQuery(s.(shards := EvictStale(s.shards, was, reply.root), backups := s.backups + {reply.root}), k,
                 CacheRoot(reply.root))
      else SetQuery(s, k, AwaitBackup)
    case AwaitBackup =>
      SetQuery(s, k, CacheRoot(if reply.Backup? && cfg.rootAllowed(reply.root) then reply.root else blank))
    case CacheRoot(root) => SetQuery(s.(baseline := Some(CachedRoot(root, now + cfg.ttl))), k, Route(root))
  }

  /** `lookup` and `get_shard_data` with a root in hand. */
  function StepRoute(s: State, k: nat, now: int, root: ArchRoot): State
    requires k in s.queries
  {
    var h := s.queries[k].hash;
    if |h| < 2 || ShardId(h) >= |root.shards| then SetQuery(s, k, Answered(Some(root), Unbound))
    else
      var d := root.shards[ShardId(h)];
      if IsEmptyShard(d) || d.blobDigest == "" then SetQuery(s, k, Answered(Some(root), Unbound))
      else if d.shardId in s.shards && Fresh(s.shards[d.shardId], d, now)
      then SetQuery(s, k, Answered(Some(root), Judge(h, s.shards[d.shardId].payload)))
      else SetQuery(s, k, AwaitBlob(root, d))
  }

  function Proceed(cfg: Config, s: State, k: nat, now: int, reply: ProxyReply, blank: ArchRoot): State
    requires k in s.queries
  {
    var q := s.queries[k];
    match q.phase
    case ReadHot =>
      if q.hash in s.hot then SetQuery(s, k, Answered(None, Hot(s.hot[q.hash]))) else SetQuery(s, k, LoadBaseline)
    case Route(root) => StepRoute(s, k, now, root)
    case AwaitBlob(root, d) =>
      if reply.Blob?
      then
        var e := CachedShard(reply.payload, reply.names, d.blobDigest, now + cfg.ttl);
        SetQuery(s.(shards := s.shards[d.shardId := e]), k, Answered(Some(root), Judge(q.hash, reply.payload)))
      else SetQuery(s, k, Answered(Some(root), Unreachable))
    case Answered(_, _) => s
    case _ => StepRoot(cfg, s, k, now, reply, blank)
  }

  ghost predicate Permitted(cfg: Config, s: State, e: ProxyEvent) {
    match e
    case Publishes(blobs, root) => Extends(s.blobs, blobs) && ShardsOk(cfg.x, cfg.codec, blobs, root.shards)
    case Register(_) => true
    case Asks(k, h) => k !in s.queries && IsStoreHash(h)
    case Proceeds(k, _, reply, blank) => k in s.queries && MayReply(cfg, s, s.queries[k], reply, blank)
    case ForceRefresh => true
    case Restart => true
  }

  ghost function After(cfg: Config, s: State, e: ProxyEvent): State
    requires Permitted(cfg, s, e)
  {
    match e
    case Publishes(blobs, root) => s.(blobs := blobs, roots := s.roots + {root})
    case Register(entries) => s.(hot := s.hot + entries, registered := s.registered + Pairs(entries))
    case Asks(k, h) => s.(queries := s.queries[k := Query(h, ReadHot)])
    case Proceeds(k, now, reply, blank) => Proceed(cfg, s, k, now, reply, blank)
    case ForceRefresh => s.(baseline := None, shards := map[])
    case Restart => s.(hot := map[], baseline := None, shards := map[], queries := map[])
  }

  // --- The invariant ---------------------------------------------------------------------------

  ghost predicate Truthful(
    c: Codec, blobs: Blobs, registered: set<(StoreHash, IndexEntry)>, h: StoreHash, root: Option<ArchRoot>, answer: Answer)
  {
    && (root.Some? ==> |root.value.shards| == NUM_SHARDS && IsStoreHash(h))
    && match answer
       case Hot(e) => (h, e) in registered
       case Bound(e) => root.Some? && Lookup(c, blobs, root.value.shards, h) == Some(e)
       case Unbound => root.Some? && Lookup(c, blobs, root.value.shards, h) == None
       case Unreachable => root.Some?
  }

  ghost predicate QueryOk(
    c: Codec, blobs: Blobs, roots: set<ArchRoot>, registered: set<(StoreHash, IndexEntry)>, q: Query)
  {
    && IsStoreHash(q.hash)
    && match q.phase
       case ReadHot => true
       case LoadBaseline => true
       case AwaitRemote => true
       case AwaitBackup => true
       case CacheRoot(root) => Known(roots, root)
       case Route(root) => Known(roots, root)
       case AwaitBlob(root, d) =>
         Known(roots, root) && ShardId(q.hash) < |root.shards| && d == root.shards[ShardId(q.hash)] && d.blobDigest != ""
       case Answered(root, answer) =>
         (root.Some? ==> Known(roots, root.value)) && Truthful(c, blobs, registered, q.hash, root, answer)
  }

  ghost predicate Sound(c: Codec, s: State) {
    && AllPresent(c, s.blobs, s.roots) && AllLabelled(c, s.blobs, s.shards)
    && (s.baseline.Some? ==> Known(s.roots, s.baseline.value.root)) && s.backups <= s.roots
    && Pairs(s.hot) <= s.registered
    && forall k | k in s.queries :: QueryOk(c, s.blobs, s.roots, s.registered, s.queries[k])
  }

  lemma SetQueryKeeps(c: Codec, s: State, k: nat, phase: ProxyPhase)
    requires Sound(c, s) && k in s.queries
    requires QueryOk(c, s.blobs, s.roots, s.registered, s.queries[k].(phase := phase))
    ensures Sound(c, SetQuery(s, k, phase))
  {
    var s' := SetQuery(s, k, phase);
    forall j | j in s'.queries ensures QueryOk(c, s'.blobs, s'.roots, s'.registered, s'.queries[j]) {
      assert QueryOk(c, s.blobs, s.roots, s.registered, s.queries[j]);
    }
  }

  lemma CachesKeep(c: Codec, s: State, s': State)
    requires Sound(c, s) && s' == s.(shards := s'.shards, baseline := s'.baseline, backups := s'.backups)
    requires AllLabelled(c, s.blobs, s'.shards) && (s'.baseline.Some? ==> Known(s.roots, s'.baseline.value.root))
    requires s'.backups <= s.roots
    ensures Sound(c, s')
  {
    forall j | j in s'.queries ensures QueryOk(c, s'.blobs, s'.roots, s'.registered, s'.queries[j]) {
      assert QueryOk(c, s.blobs, s.roots, s.registered, s.queries[j]);
    }
  }

  lemma RootKeeps(cfg: Config, s: State, k: nat, now: int, reply: ProxyReply, blank: ArchRoot)
    requires Sound(cfg.codec, s) && k in s.queries && MayReply(cfg, s, s.queries[k], reply, blank)
    requires AtRoot(s.queries[k].phase)
    ensures Sound(cfg.codec, StepRoot(cfg, s, k, now, reply, blank))
  {
    var c := cfg.codec;
    assert QueryOk(c, s.blobs, s.roots, s.registered, s.queries[k]);
    match s.queries[k].phase
    case LoadBaseline =>
      if s.baseline.Some? { SetQueryKeeps(c, s, k, Route(s.baseline.value.root)); }
      SetQueryKeeps(c, s, k, AwaitRemote);
    case AwaitRemote =>
      if reply.Root? {
        var was := if s.baseline.Some? then Some(s.baseline.value.root) else None;
        var s1 := s.(shards := EvictStale(s.shards, was, reply.root), backups := s.backups + {reply.root});
        assert AllLabelled(c, s.blobs, s1.shards);
        CachesKeep(c, s, s1);
        SetQueryKeeps(c, s1, k, CacheRoot(reply.root));
      }
      SetQueryKeeps(c, s, k, AwaitBackup);
    case AwaitBackup =>
      if reply.Backup? { SetQueryKeeps(c, s, k, CacheRoot(reply.root)); }
      SetQueryKeeps(c, s, k, CacheRoot(blank));
    case CacheRoot(root) =>
      var s1 := s.(baseline := Some(CachedRoot(root, now + cfg.ttl)));
      CachesKeep(c, s, s1);
      SetQueryKeeps(c, s1, k, Route(root));
  }

  /** The shard's payload decides the answer. */
  lemma JudgeIsTruthful(
    c: Codec, blobs: Blobs, registered: set<(StoreHash, IndexEntry)>, h: StoreHash, root: ArchRoot, p: ShardPayload)
    requires Present(c, blobs, root) && IsStoreHash(h) && root.shards[ShardId(h)].blobDigest != ""
    requires Addressed(c, blobs, root.shards[ShardId(h)].blobDigest, p)
    ensures Truthful(c, blobs, registered, h, Some(root), Judge(h, p))
  {
    PayloadDecides(c, blobs, root, ShardId(h), p);
  }

  lemma RouteKeeps(c: Codec, s: State, k: nat, now: int)
    requires Sound(c, s) && k in s.queries && s.queries[k].phase.Route?
    ensures Sound(c, StepRoute(s, k, now, s.queries[k].phase.root))
  {
    var q := s.queries[k];
    var root, h := q.phase.root, q.hash;
    assert QueryOk(c, s.blobs, s.roots, s.registered, q);
    KnownIsPresent(c, s.blobs, s.roots, root);
    var d := root.shards[ShardId(h)];
    if IsEmptyShard(d) || d.blobDigest == "" {
      EmptyDecides(c, s.blobs, root, h);
      SetQueryKeeps(c, s, k, Answered(Some(root), Unbound));
    } else if d.shardId in s.shards && Fresh(s.shards[d.shardId], d, now) {
      assert Labelled(c, s.blobs, s.shards[d.shardId]);
      JudgeIsTruthful(c, s.blobs, s.registered, h, root, s.shards[d.shardId].payload);
      SetQueryKeeps(c, s, k, Answered(Some(root), Judge(h, s.shards[d.shardId].payload)));
    } else {
      SetQueryKeeps(c, s, k, AwaitBlob(root, d));
    }
  }

  lemma BlobKeeps(cfg: Config, s: State, k: nat, now: int, reply: ProxyReply, blank: ArchRoot)
    requires Sound(cfg.codec, s) && k in s.queries && s.queries[k].phase.AwaitBlob?
    requires MayReply(cfg, s, s.queries[k], reply, blank)
    ensures Sound(cfg.codec, Proceed(cfg, s, k, now, reply, blank))
  {
    var c, q := cfg.codec, s.queries[k];
    var root, d := q.phase.root, q.phase.d;
    assert QueryOk(c, s.blobs, s.roots, s.registered, q);
    KnownIsPresent(c, s.blobs, s.roots, root);
    if reply.Blob? {
      JudgeIsTruthful(c, s.blobs, s.registered, q.hash, root, reply.payload);
      var s1 := s.(shards := s.shards[d.shardId := CachedShard(reply.payload, reply.names, d.blobDigest, now + cfg.ttl)]);
      assert AllLabelled(c, s.blobs, s1.shards);
      CachesKeep(c, s, s1);
      SetQueryKeeps(c, s1, k, Answered(Some(root), Judge(q.hash, reply.payload)));
    }
    SetQueryKeeps(c, s, k, Answered(Some(root), Unreachable));
  }

  lemma HotKeeps(c: Codec, s: State, k: nat)
    requires Sound(c, s) && k in s.queries
    ensures s.queries[k].hash in s.hot ==> Sound(c, SetQuery(s, k, Answered(None, Hot(s.hot[s.queries[k].hash]))))
    ensures Sound(c, SetQuery(s, k, LoadBaseline))
  {
    var h := s.queries[k].hash;
    assert QueryOk(c, s.blobs, s.roots, s.registered, s.queries[k]);
    if h in s.hot {
      assert (h, s.hot[h]) in Pairs(s.hot);
      SetQueryKeeps(c, s, k, Answered(None, Hot(s.hot[h])));
    }
    SetQueryKeeps(c, s, k, LoadBaseline);
  }

  lemma ProceedKeeps(cfg: Config, s: State, k: nat, now: int, reply: ProxyReply, blank: ArchRoot)
    requires Sound(cfg.codec, s) && k in s.queries && MayReply(cfg, s, s.queries[k], reply, blank)
    ensures Sound(cfg.codec, Proceed(cfg, s, k, now, reply, blank))
  {
    match s.queries[k].phase
    case ReadHot => HotKeeps(cfg.codec, s, k);
    case Route(_) => RouteKeeps(cfg.codec, s, k, now);
    case AwaitBlob(_, _) => BlobKeeps(cfg, s, k, now, reply, blank);
    case Answered(_, _) =>
    case _ => RootKeeps(cfg, s, k, now, reply, blank);
  }

  lemma QueryExtends(
    c: Codec, a: Blobs, b: Blobs, roots: set<ArchRoot>, more: set<ArchRoot>, reg: set<(StoreHash, IndexEntry)>,
    reg': set<(StoreHash, IndexEntry)>, q: Query)
    requires AllPresent(c, a, roots) && Extends(a, b) && roots <= more && reg <= reg' && QueryOk(c, a, roots, reg, q)
    ensures QueryOk(c, b, more, reg', q)
  {
    if q.phase.Answered? && q.phase.read.Some? {
      KnownIsPresent(c, a, roots, q.phase.read.value);
      PresentExtends(c, a, b, q.phase.read.value);
    }
  }

  lemma PublishesKeeps(cfg: Config, s: State, blobs: Blobs, root: ArchRoot)
    requires Sound(cfg.codec, s) && Permitted(cfg, s, Publishes(blobs, root))
    ensures Sound(cfg.codec, s.(blobs := blobs, roots := s.roots + {root}))
  {
    var c, more := cfg.codec, s.roots + {root};
    PublishedIsPresent(cfg.x, c, blobs, root);
    forall r | r in more ensures Present(c, blobs, r) {
      if r != root { PresentExtends(c, s.blobs, blobs, r); }
    }
    forall id | id in s.shards ensures Labelled(c, blobs, s.shards[id]) {
      assert Labelled(c, s.blobs, s.shards[id]);
    }
    forall k | k in s.queries ensures QueryOk(c, blobs, more, s.registered, s.queries[k]) {
      QueryExtends(c, s.blobs, blobs, s.roots, more, s.registered, s.registered, s.queries[k]);
    }
  }

  lemma RegisterKeeps(c: Codec, s: State, entries: Entries)
    requires Sound(c, s)
    ensures Sound(c, s.(hot := s.hot + entries, registered := s.registered + Pairs(entries)))
  {
    var reg := s.registered + Pairs(entries);
    forall p | p in Pairs(s.hot + entries) ensures p in reg {
      assert p.0 !in entries ==> p in Pairs(s.hot);
    }
    forall k | k in s.queries ensures QueryOk(c, s.blobs, s.roots, reg, s.queries[k]) {
      QueryExtends(c, s.blobs, s.blobs, s.roots, s.roots, s.registered, reg, s.queries[k]);
    }
  }

  /** A new process starts with the backup file that an earlier one left. */
  lemma RestartKeeps(c: Codec, s: State)
    requires Sound(c, s)
    ensures Sound(c, s.(hot := map[], baseline := None, shards := map[], queries := map[]))
  {
    assert Pairs(map[]) == {};
  }

  lemma ProxyEventKeeps(cfg: Config, s: State, e: ProxyEvent)
    requires Sound(cfg.codec, s) && Permitted(cfg, s, e)
    ensures Sound(cfg.codec, After(cfg, s, e))
  {
    match e
    case Publishes(blobs, root) => PublishesKeeps(cfg, s, blobs, root);
    case Register(entries) => RegisterKeeps(cfg.codec, s, entries);
    case Proceeds(k, now, reply, blank) => ProceedKeeps(cfg, s, k, now, reply, blank);
    case ForceRefresh => CachesKeep(cfg.codec, s, s.(baseline := None, shards := map[]));
    case Restart => RestartKeeps(cfg.codec, s);
    case Asks(k, h) =>
      var s' := After(cfg, s, e);
      forall j | j in s'.queries ensures QueryOk(cfg.codec, s'.blobs, s'.roots, s'.registered, s'.queries[j]) {
        assert j != k ==> QueryOk(cfg.codec, s.blobs, s.roots, s.registered, s.queries[j]);
      }
  }

  const IDLE: State := State(map[], {}, map[], {}, None, map[], {}, map[])

  ghost predicate IsProxyRun(cfg: Config, ss: seq<State>, es: seq<ProxyEvent>) {
    && |ss| == |es| + 1 && ss[0] == IDLE
    && forall i | 0 <= i < |es| :: Permitted(cfg, ss[i], es[i]) && ss[i + 1] == After(cfg, ss[i], es[i])
  }

  lemma {:induction false} ProxyRunsStaySound(cfg: Config, ss: seq<State>, es: seq<ProxyEvent>, n: nat)
    requires IsProxyRun(cfg, ss, es) && n < |ss|
    ensures Sound(cfg.codec, ss[n])
  {
    if n > 0 {
      ProxyRunsStaySound(cfg, ss, es, n - 1);
      ProxyEventKeeps(cfg, ss[n - 1], es[n - 1]);
    }
  }

  /**
   A baseline hit is the entry its root binds, a hot hit was registered, and a miss hides an
   entry of its root only where the shard could not be fetched.
   */
  lemma ProxyAnswersAreTruthful(cfg: Config, ss: seq<State>, es: seq<ProxyEvent>, n: nat, k: nat)
    requires IsProxyRun(cfg, ss, es) && n < |ss| && k in ss[n].queries && ss[n].queries[k].phase.Answered?
    ensures var q := ss[n].queries[k];
            && (q.phase.read.Some? ==> Known(ss[n].roots, q.phase.read.value))
            && Truthful(cfg.codec, ss[n].blobs, ss[n].registered, q.hash, q.phase.read, q.phase.answer)
  {
    ProxyRunsStaySound(cfg, ss, es, n);
    assert QueryOk(cfg.codec, ss[n].blobs, ss[n].roots, ss[n].registered, ss[n].queries[k]);
  }
}
