/**
 How old the root behind an answer can be, over every run of the worker. A root reaches a task
 from memory, from the key-value store, from the registry, or as a fallback after a refresh
 failed, and it was given by the registry before. The same events show that a lookup whose
 operations succeed ends.
 */
module Freshness {
  import opened Basics
  import opened Types
  import opened Merkle
  import opened Root
  import opened Store
  import opened Index
  import opened Coherence
  import opened Worker
  import WorkerLaws

  // --- What one event does ---------------------------------------------------------------------

  /** The event is a step of the task. */
  predicate Moves(e: Event, k: nat) {
    (e.Start? || e.Resume?) && e.task == k
  }

  /** Only the phase of the task may differ among the tasks. */
  ghost predicate Rephased(w: World, w': World, k: nat)
    requires k in w.tasks
  {
    && k in w'.tasks && w'.tasks[k].isolate == w.tasks[k].isolate && w'.tasks[k].goal == w.tasks[k].goal
    && forall j | j != k :: (j in w'.tasks <==> j in w.tasks) && (j in w.tasks ==> w'.tasks[j] == w.tasks[j])
  }

  ghost function Rephasing(w: World, k: nat): World -> bool
    requires k in w.tasks
  {
    (w': World) => Rephased(w, w', k)
  }

  lemma SetPhaseTouches(w: World, v: World, k: nat, phase: Phase)
    requires k in w.tasks && v.tasks == w.tasks
    ensures Rephasing(w, k)(SetPhase(v, k, phase))
  {
  }

  lemma BaselineTouches(env: Env, w: World, k: nat, now: int, reply: Reply)
    requires k in w.tasks && AtBaseline(w.tasks[k].phase)
    ensures Rephasing(w, k)(StepBaseline(env, w, k, now, reply))
  {
  }

  lemma RefreshTouches(env: Env, w: World, k: nat, reply: Reply)
    requires k in w.tasks && AtRefresh(w.tasks[k].phase)
    ensures Rephasing(w, k)(StepRefresh(env, w, k, reply))
  {
  }

  lemma ShardTouches(env: Env, w: World, k: nat, reply: Reply)
    requires k in w.tasks && AtShard(w.tasks[k].phase)
    ensures Rephasing(w, k)(StepShard(env, w, k, reply))
  {
  }

  lemma RoutedTouches(w: World, k: nat, now: int, root: ArchRoot, healed: bool)
    requires k in w.tasks
    ensures Rephasing(w, k)(StepRouted(w, k, now, root, healed))
  {
  }

  lemma MissTouches(w: World, k: nat, now: int, root: ArchRoot, healed: bool)
    requires k in w.tasks
    ensures Rephasing(w, k)(StepMiss(w, k, now, root, healed))
  {
  }

  lemma ScanTouches(w: World, k: nat, root: ArchRoot, reply: Reply)
    requires k in w.tasks
    ensures Rephasing(w, k)(StepScan(w, k, root, reply))
  {
  }

  lemma OtherTouches(env: Env, w: World, k: nat, now: int, reply: Reply)
    requires k in w.tasks
    requires var p := w.tasks[k].phase; !AtBaseline(p) && !AtRefresh(p) && !AtShard(p)
    ensures Rephasing(w, k)(StepTask(env, w, k, now, reply))
  {
    match w.tasks[k].phase
    case HaveRoot(root, healed) => RoutedTouches(w, k, now, root, healed);
    case Missed(root, healed) => MissTouches(w, k, now, root, healed);
    case Scan(root) => ScanTouches(w, k, root, reply);
    case _ =>
  }

  /** A step changes the phase of its own task and nothing about the others. */
  lemma StepTouches(env: Env, w: World, k: nat, now: int, reply: Reply)
    requires k in w.tasks
    ensures Rephasing(w, k)(StepTask(env, w, k, now, reply))
  {
    var p := w.tasks[k].phase;
    if AtBaseline(p) {
      BaselineTouches(env, w, k, now, reply);
    } else if AtRefresh(p) {
      RefreshTouches(env, w, k, reply);
    } else if AtShard(p) {
      ShardTouches(env, w, k, reply);
    } else {
      OtherTouches(env, w, k, now, reply);
    }
  }

  lemma EventTouches(env: Env, w: World, e: Event, k: nat)
    requires Allowed(env, w, e)
    ensures e.Resume? && e.task == k ==> k in w.tasks && Rephased(w, Next(env, w, e), k)
    ensures !Moves(e, k) ==>
              && (k in Next(env, w, e).tasks <==> k in w.tasks)
              && (k in w.tasks ==> Next(env, w, e).tasks[k] == w.tasks[k])
  {
    if e.Resume? { StepTouches(env, w, e.task, e.now, e.reply); }
  }

  /** Where a task stands is what its last step left. */
  lemma {:induction false} LastMove(env: Env, ws: seq<World>, es: seq<Event>, n: nat, k: nat) returns (j: nat)
    requires IsRun(env, ws, es) && n < |ws| && k in ws[n].tasks
    ensures j < n && Moves(es[j], k) && k in ws[j + 1].tasks && ws[j + 1].tasks[k] == ws[n].tasks[k]
    ensures es[j].Resume? ==> k in ws[j].tasks && ws[j].tasks[k] == ws[n].tasks[k].(phase := ws[j].tasks[k].phase)
  {
    EventTouches(env, ws[n - 1], es[n - 1], k);
    if Moves(es[n - 1], k) {
      j := n - 1;
    } else {
      j := LastMove(env, ws, es, n - 1, k);
    }
  }

  // --- Which root a task works with ------------------------------------------------------------

  /** The root a task has taken; one that is only just being fetched is not taken yet. */
  function RootOf(p: Phase): Option<ArchRoot> {
    match p
    case ReadBaseline => None
    case AwaitKvRoot(_) => None
    case AwaitFallbackRoot => None
    case Failed => None
    case StoringRoot(_, _, _) => None
    case AwaitRoot(_, _, healing) => healing
    case HaveRoot(root, _) => Some(root)
    case AwaitKvShard(root, _, _, _) => Some(root)
    case AwaitShard(root, _, _, _) => Some(root)
    case StoringShard(root, _, _, _, _, _) => Some(root)
    case AwaitFallbackShard(root, _, _) => Some(root)
    case GotShard(root, _, _, _, _) => Some(root)
    case Missed(root, _) => Some(root)
    case AwaitHead(root) => Some(root)
    case Scan(root) => Some(root)
    case Done(root, _) => Some(root)
  }

  predicate Taking(p: Phase) {
    AtBaseline(p) || p.StoringRoot?
  }

  /** The registry gives the root to a task that asked for it after reading the clock. */
  ghost predicate Gives(env: Env, p: Phase, reply: Reply, root: ArchRoot, at: int) {
    p.AwaitRoot? && p.at == at && reply == RemoteRoot(root, true) && env.rootAllowed(root)
  }

  lemma BaselinePhase(env: Env, w: World, k: nat, now: int, reply: Reply)
    requires k in w.tasks && AtBaseline(w.tasks[k].phase)
    ensures var p, p' := w.tasks[k].phase, StepBaseline(env, w, k, now, reply).tasks[k].phase;
            var cached := MemoryOf(w, w.tasks[k].isolate).baseline;
            && (p'.HaveRoot? || p'.AwaitKvRoot? || (p'.AwaitRoot? && p'.healing.None?) || p'.Failed?)
            && (p'.AwaitKvRoot? || p'.AwaitRoot? ==> p'.at == now)
            && (p.ReadBaseline? && p'.HaveRoot? ==>
                  cached.Some? && p'.root == cached.value.root && now < cached.value.expiresAt)
            && (p.AwaitKvRoot? && p'.HaveRoot? ==>
                  reply.KvRoot? && p'.root == reply.root && p.at - reply.at < env.baselineTtl && env.rootAllowed(p'.root))
            && (p.AwaitFallbackRoot? && p'.HaveRoot? ==>
                  reply.KvRoot? && p'.root == reply.root && env.rootAllowed(p'.root))
  {
  }

  lemma RefreshPhase(env: Env, w: World, k: nat, reply: Reply)
    requires k in w.tasks && AtRefresh(w.tasks[k].phase)
    ensures var p, p' := w.tasks[k].phase, StepRefresh(env, w, k, reply).tasks[k].phase;
            && (p.StoringRoot? ==> p' == HaveRoot(p.root, p.healed))
            && (p.AwaitRoot? ==> (p'.StoringRoot? && Gives(env, p, reply, p'.root, p'.at)) || p' == RefreshFailed(p.healing))
            && (p'.AwaitFallbackRoot? ==> p.AwaitRoot? && forall root :: !Gives(env, p, reply, root, p.at))
  {
  }

  lemma ShardPhase(env: Env, w: World, k: nat, reply: Reply)
    requires k in w.tasks && AtShard(w.tasks[k].phase)
    ensures var p, p' := w.tasks[k].phase, StepShard(env, w, k, reply).tasks[k].phase;
            (p'.Failed? || RootOf(p') == RootOf(p)) && !AtBaseline(p') && !AtRefresh(p') && !p'.Done?
  {
  }

  lemma RoutedPhase(w: World, k: nat, now: int, root: ArchRoot, healed: bool)
    requires k in w.tasks
    ensures var p' := StepRouted(w, k, now, root, healed).tasks[k].phase; RootOf(p') == Some(root) && !AtBaseline(p') && !AtRefresh(p')
  {
  }

  lemma MissPhase(w: World, k: nat, now: int, root: ArchRoot, healed: bool)
    requires k in w.tasks
    ensures var p' := StepMiss(w, k, now, root, healed).tasks[k].phase; RootOf(p') == Some(root) && !AtBaseline(p') && !AtRefresh(p')
  {
  }

  lemma ScanPhase(w: World, k: nat, root: ArchRoot, reply: Reply)
    requires k in w.tasks
    ensures var p' := StepScan(w, k, root, reply).tasks[k].phase; RootOf(p') == Some(root) && !AtBaseline(p') && !AtRefresh(p')
  {
  }

  lemma OtherPhase(env: Env, w: World, k: nat, now: int, reply: Reply)
    requires k in w.tasks
    requires var p := w.tasks[k].phase; !AtBaseline(p) && !AtRefresh(p) && !AtShard(p)
    ensures var p, p' := w.tasks[k].phase, StepTask(env, w, k, now, reply).tasks[k].phase;
            && RootOf(p') == RootOf(p) && !AtBaseline(p') && !p'.StoringRoot?
            && (p'.AwaitRoot? ==> p.AwaitHead? && reply.HeadChanged? && p'.at == now)
  {
    match w.tasks[k].phase
    case HaveRoot(root, healed) => RoutedPhase(w, k, now, root, healed);
    case Missed(root, healed) => MissPhase(w, k, now, root, healed);
    case Scan(root) => ScanPhase(w, k, root, reply);
    case _ =>
  }

  /** How a step can give a task its root: from memory, from the key-value store, or as just fetched. */
  ghost predicate TakenFrom(env: Env, cached: Option<CachedRoot>, p: Phase, now: int, reply: Reply, root: ArchRoot) {
    match p
    case ReadBaseline => cached.Some? && root == cached.value.root && now < cached.value.expiresAt
    case AwaitKvRoot(at) => reply.KvRoot? && root == reply.root && at - reply.at < env.baselineTtl
    case AwaitFallbackRoot => reply.KvRoot? && root == reply.root
    case StoringRoot(_, fetched, _) => root == fetched
    case _ => false
  }

  ghost predicate PhaseStep(env: Env, cached: Option<CachedRoot>, p: Phase, now: int, reply: Reply, p': Phase) {
    && (p'.AwaitKvRoot? || p'.AwaitRoot? ==> p'.at == now)
    && (p'.StoringRoot? ==> Gives(env, p, reply, p'.root, p'.at))
    && (p'.AwaitFallbackRoot? ==> p.AwaitRoot? && forall root :: !Gives(env, p, reply, root, p.at))
    && (RootOf(p').Some? ==> RootOf(p') == RootOf(p) || TakenFrom(env, cached, p, now, reply, RootOf(p').value))
  }

  ghost function PhaseSteps(env: Env, cached: Option<CachedRoot>, p: Phase, now: int, reply: Reply): Phase -> bool {
    (p': Phase) => PhaseStep(env, cached, p, now, reply, p')
  }

  /** The phase a step leaves its task in. */
  ghost function PhaseAfter(env: Env, w: World, k: nat, now: int, reply: Reply): Phase
    requires k in w.tasks
  {
    StepTouches(env, w, k, now, reply);
    StepTask(env, w, k, now, reply).tasks[k].phase
  }

  lemma BaselineSteps(env: Env, w: World, k: nat, now: int, reply: Reply)
    requires k in w.tasks && AtBaseline(w.tasks[k].phase)
    ensures var t := w.tasks[k];
            PhaseSteps(env, MemoryOf(w, t.isolate).baseline, t.phase, now, reply)(PhaseAfter(env, w, k, now, reply))
  {
    BaselinePhase(env, w, k, now, reply);
  }

  lemma RefreshSteps(env: Env, w: World, k: nat, now: int, reply: Reply)
    requires k in w.tasks && AtRefresh(w.tasks[k].phase)
    ensures var t := w.tasks[k];
            PhaseSteps(env, MemoryOf(w, t.isolate).baseline, t.phase, now, reply)(PhaseAfter(env, w, k, now, reply))
  {
    RefreshPhase(env, w, k, reply);
  }

  lemma ShardSteps(env: Env, w: World, k: nat, now: int, reply: Reply)
    requires k in w.tasks && AtShard(w.tasks[k].phase)
    ensures var t := w.tasks[k];
            PhaseSteps(env, MemoryOf(w, t.isolate).baseline, t.phase, now, reply)(PhaseAfter(env, w, k, now, reply))
  {
    ShardPhase(env, w, k, reply);
  }

  lemma OtherSteps(env: Env, w: World, k: nat, now: int, reply: Reply)
    requires k in w.tasks
    requires var p := w.tasks[k].phase; !AtBaseline(p) && !AtRefresh(p) && !AtShard(p)
    ensures var t := w.tasks[k];
            PhaseSteps(env, MemoryOf(w, t.isolate).baseline, t.phase, now, reply)(PhaseAfter(env, w, k, now, reply))
  {
    OtherPhase(env, w, k, now, reply);
  }

  lemma TaskSteps(env: Env, w: World, k: nat, now: int, reply: Reply)
    requires k in w.tasks
    ensures var t := w.tasks[k];
            PhaseSteps(env, MemoryOf(w, t.isolate).baseline, t.phase, now, reply)(PhaseAfter(env, w, k, now, reply))
  {
    var p := w.tasks[k].phase;
    if AtBaseline(p) {
      BaselineSteps(env, w, k, now, reply);
    } else if AtRefresh(p) {
      RefreshSteps(env, w, k, now, reply);
    } else if AtShard(p) {
      ShardSteps(env, w, k, now, reply);
    } else {
      OtherSteps(env, w, k, now, reply);
    }
  }

  // --- What a step writes ----------------------------------------------------------------------

  lemma RefreshStores(env: Env, w: World, k: nat, reply: Reply, root: ArchRoot, at: int)
    requires k in w.tasks && AtRefresh(w.tasks[k].phase) && (root, at) in StepRefresh(env, w, k, reply).kvRoots
    ensures (root, at) in w.kvRoots || Gives(env, w.tasks[k].phase, reply, root, at)
  {
  }

  lemma BaselineStores(env: Env, w: World, k: nat, now: int, reply: Reply)
    requires k in w.tasks && AtBaseline(w.tasks[k].phase)
    ensures StepBaseline(env, w, k, now, reply).kvRoots == w.kvRoots
  {
  }

  lemma ShardStores(env: Env, w: World, k: nat, reply: Reply)
    requires k in w.tasks && AtShard(w.tasks[k].phase)
    ensures StepShard(env, w, k, reply).kvRoots == w.kvRoots
  {
  }

  lemma LookupStores(w: World, k: nat, now: int, root: ArchRoot, healed: bool, reply: Reply)
    requires k in w.tasks
    ensures StepRouted(w, k, now, root, healed).kvRoots == w.kvRoots && StepMiss(w, k, now, root, healed).kvRoots == w.kvRoots
    ensures StepScan(w, k, root, reply).kvRoots == w.kvRoots
  {
  }

  lemma OtherStores(env: Env, w: World, k: nat, now: int, reply: Reply)
    requires k in w.tasks
    requires var p := w.tasks[k].phase; !AtBaseline(p) && !AtRefresh(p) && !AtShard(p)
    ensures StepTask(env, w, k, now, reply).kvRoots == w.kvRoots
  {
    match w.tasks[k].phase
    case HaveRoot(root, healed) => LookupStores(w, k, now, root, healed, reply);
    case Missed(root, healed) => LookupStores(w, k, now, root, healed, reply);
    case Scan(root) => LookupStores(w, k, now, root, false, reply);
    case _ =>
  }

  /** Only a root the registry gives enters the key-value store. */
  lemma StepStores(env: Env, w: World, k: nat, now: int, reply: Reply, root: ArchRoot, at: int)
    requires k in w.tasks && (root, at) in StepTask(env, w, k, now, reply).kvRoots
    ensures (root, at) in w.kvRoots || Gives(env, w.tasks[k].phase, reply, root, at)
  {
    var p := w.tasks[k].phase;
    if AtBaseline(p) {
      BaselineStores(env, w, k, now, reply);
    } else if AtRefresh(p) {
      RefreshStores(env, w, k, reply, root, at);
    } else if AtShard(p) {
      ShardStores(env, w, k, reply);
    } else {
      OtherStores(env, w, k, now, reply);
    }
  }

  function BaselineOf(w: World, isolate: nat): Option<CachedRoot> {
    MemoryOf(w, isolate).baseline
  }

  /** A cached root stays, goes, or is replaced by the one its task takes. */
  ghost predicate CacheStep(
    was: Option<CachedRoot>, isolate: nat, t: Task, p': Phase, now: Option<CachedRoot>)
  {
    || now == was || now.None?
    || (&& t.isolate == isolate && (t.phase.AwaitKvRoot? || t.phase.StoringRoot?) && p'.HaveRoot?
        && now.value == CachedRoot(p'.root, t.phase.at + MEMORY_TTL))
  }

  lemma BaselineCaches(env: Env, w: World, k: nat, now: int, reply: Reply, i: nat)
    requires k in w.tasks && AtBaseline(w.tasks[k].phase)
    ensures var w' := StepBaseline(env, w, k, now, reply);
            CacheStep(BaselineOf(w, i), i, w.tasks[k], w'.tasks[k].phase, BaselineOf(w', i))
  {
  }

  lemma RefreshCaches(env: Env, w: World, k: nat, reply: Reply, i: nat)
    requires k in w.tasks && AtRefresh(w.tasks[k].phase)
    ensures var w' := StepRefresh(env, w, k, reply);
            CacheStep(BaselineOf(w, i), i, w.tasks[k], w'.tasks[k].phase, BaselineOf(w', i))
  {
  }

  lemma ShardCaches(env: Env, w: World, k: nat, reply: Reply, i: nat)
    requires k in w.tasks && AtShard(w.tasks[k].phase)
    ensures BaselineOf(StepShard(env, w, k, reply), i) == BaselineOf(w, i)
  {
  }

  lemma OtherCaches(env: Env, w: World, k: nat, now: int, reply: Reply, i: nat)
    requires k in w.tasks
    requires var p := w.tasks[k].phase; !AtBaseline(p) && !AtRefresh(p) && !AtShard(p)
    ensures BaselineOf(StepTask(env, w, k, now, reply), i) == BaselineOf(w, i)
  {
  }

  lemma StepCaches(env: Env, w: World, k: nat, now: int, reply: Reply, i: nat)
    requires k in w.tasks
    ensures CacheStep(BaselineOf(w, i), i, w.tasks[k], PhaseAfter(env, w, k, now, reply),
                      BaselineOf(StepTask(env, w, k, now, reply), i))
  {
    var p := w.tasks[k].phase;
    if AtBaseline(p) {
      BaselineCaches(env, w, k, now, reply, i);
    } else if AtRefresh(p) {
      RefreshCaches(env, w, k, reply, i);
    } else if AtShard(p) {
      ShardCaches(env, w, k, reply, i);
    } else {
      OtherCaches(env, w, k, now, reply, i);
    }
  }

  // --- Runs ------------------------------------------------------------------------------------

  /** Before the `n`th event the task read the clock and found this time. */
  ghost predicate Read(es: seq<Event>, n: nat, k: nat, time: int)
    requires n <= |es|
  {
    exists i | 0 <= i < n :: Moves(es[i], k) && es[i].now == time
  }

  /** The `j`th event brings the root from the registry to a task that asked at this time. */
  ghost predicate GivesAt(env: Env, ws: seq<World>, es: seq<Event>, j: nat, root: ArchRoot, at: int)
    requires j < |es| < |ws|
  {
    && es[j].Resume? && es[j].task in ws[j].tasks && Read(es, j, es[j].task, at)
    && Gives(env, ws[j].tasks[es[j].task].phase, es[j].reply, root, at)
  }

  ghost predicate Given(env: Env, ws: seq<World>, es: seq<Event>, n: nat, root: ArchRoot, at: int)
    requires n <= |es| < |ws|
  {
    exists j | 0 <= j < n :: GivesAt(env, ws, es, j, root, at)
  }

  lemma GivenStays(env: Env, ws: seq<World>, es: seq<Event>, m: nat, n: nat, root: ArchRoot, at: int)
    requires m <= n <= |es| < |ws| && Given(env, ws, es, m, root, at)
    ensures Given(env, ws, es, n, root, at)
  {
    var j :| 0 <= j < m && GivesAt(env, ws, es, j, root, at);
  }

  /** The step from one world of a run to the next, seen from the task that moves. */
  lemma RunSteps(env: Env, ws: seq<World>, es: seq<Event>, j: nat)
    requires IsRun(env, ws, es) && j < |es| && es[j].Resume?
    ensures var k := es[j].task;
            && k in ws[j].tasks && k in ws[j + 1].tasks && CanReply(env, ws[j], ws[j].tasks[k], es[j].reply)
            && PhaseStep(env, BaselineOf(ws[j], ws[j].tasks[k].isolate), ws[j].tasks[k].phase, es[j].now, es[j].reply,
                         ws[j + 1].tasks[k].phase)
  {
    var k := es[j].task;
    assert Allowed(env, ws[j], es[j]) && ws[j + 1] == Next(env, ws[j], es[j]);
    StepTouches(env, ws[j], k, es[j].now, es[j].reply);
    TaskSteps(env, ws[j], k, es[j].now, es[j].reply);
  }

  lemma StartsAt(env: Env, ws: seq<World>, es: seq<Event>, j: nat)
    requires IsRun(env, ws, es) && j < |es| && es[j].Start?
    ensures var k := es[j].task;
            && k in ws[j + 1].tasks
            && var p := ws[j + 1].tasks[k].phase; p.ReadBaseline? || (p.AwaitRoot? && p.healing.None? && p.at == es[j].now)
  {
    assert Allowed(env, ws[j], es[j]) && ws[j + 1] == Next(env, ws[j], es[j]);
  }

  /** A task that waits for a root read the clock when it began to wait. */
  lemma AwaitsSince(env: Env, ws: seq<World>, es: seq<Event>, n: nat, k: nat)
    requires IsRun(env, ws, es) && n <= |es| && k in ws[n].tasks
    requires ws[n].tasks[k].phase.AwaitKvRoot? || ws[n].tasks[k].phase.AwaitRoot?
    ensures Read(es, n, k, ws[n].tasks[k].phase.at)
  {
    var j := LastMove(env, ws, es, n, k);
    if es[j].Start? {
      StartsAt(env, ws, es, j);
    } else {
      RunSteps(env, ws, es, j);
    }
    assert es[j].now == ws[n].tasks[k].phase.at;
  }

  lemma StoringIsGiven(env: Env, ws: seq<World>, es: seq<Event>, n: nat, k: nat)
    requires IsRun(env, ws, es) && n <= |es| && k in ws[n].tasks && ws[n].tasks[k].phase.StoringRoot?
    ensures Given(env, ws, es, n, ws[n].tasks[k].phase.root, ws[n].tasks[k].phase.at)
    ensures Read(es, n, k, ws[n].tasks[k].phase.at)
  {
    var j := LastMove(env, ws, es, n, k);
    if es[j].Start? {
      StartsAt(env, ws, es, j);
    } else {
      RunSteps(env, ws, es, j);
      AwaitsSince(env, ws, es, j, k);
      assert GivesAt(env, ws, es, j, ws[n].tasks[k].phase.root, ws[n].tasks[k].phase.at);
    }
  }

  /** Every root in the key-value store was given by the registry, and its label is when it was asked for. */
  lemma {:induction false} StoredIsGiven(env: Env, ws: seq<World>, es: seq<Event>, n: nat, root: ArchRoot, at: int)
    requires IsRun(env, ws, es) && n <= |es| && (root, at) in ws[n].kvRoots
    ensures Given(env, ws, es, n, root, at)
  {
    var j := n - 1;
    assert Allowed(env, ws[j], es[j]) && ws[n] == Next(env, ws[j], es[j]);
    if (root, at) in ws[j].kvRoots {
      StoredIsGiven(env, ws, es, j, root, at);
      GivenStays(env, ws, es, j, n, root, at);
    } else {
      StepStores(env, ws[j], es[j].task, es[j].now, es[j].reply, root, at);
      AwaitsSince(env, ws, es, j, es[j].task);
      assert GivesAt(env, ws, es, j, root, at);
    }
  }

  /** The `j`th event caches the root that a task of the isolate takes, having read this time before. */
  ghost predicate CachesAt(ws: seq<World>, es: seq<Event>, j: nat, isolate: nat, root: ArchRoot, at: int)
    requires j < |es| < |ws|
  {
    && es[j].Resume? && es[j].task in ws[j].tasks && es[j].task in ws[j + 1].tasks
    && var t, p' := ws[j].tasks[es[j].task], ws[j + 1].tasks[es[j].task].phase;
       t.isolate == isolate && (t.phase.AwaitKvRoot? || t.phase.StoringRoot?) && t.phase.at == at && p'.HaveRoot? && p'.root == root
  }

  lemma EventCaches(env: Env, ws: seq<World>, es: seq<Event>, j: nat, i: nat)
    requires IsRun(env, ws, es) && j < |es| && BaselineOf(ws[j + 1], i).Some?
    ensures var c := BaselineOf(ws[j + 1], i);
            c == BaselineOf(ws[j], i) || CachesAt(ws, es, j, i, c.value.root, c.value.expiresAt - MEMORY_TTL)
  {
    assert Allowed(env, ws[j], es[j]) && ws[j + 1] == Next(env, ws[j], es[j]);
    if es[j].Resume? {
      StepTouches(env, ws[j], es[j].task, es[j].now, es[j].reply);
      StepCaches(env, ws[j], es[j].task, es[j].now, es[j].reply, i);
    }
  }

  /** A cached root was taken by a task of its isolate, and expires that long after the task read the clock. */
  lemma {:induction false} CachedIsTaken(env: Env, ws: seq<World>, es: seq<Event>, n: nat, i: nat) returns (j: nat)
    requires IsRun(env, ws, es) && n <= |es| && BaselineOf(ws[n], i).Some?
    ensures var c := BaselineOf(ws[n], i).value; j < n && CachesAt(ws, es, j, i, c.root, c.expiresAt - MEMORY_TTL)
  {
    EventCaches(env, ws, es, n - 1, i);
    if BaselineOf(ws[n], i) == BaselineOf(ws[n - 1], i) {
      j := CachedIsTaken(env, ws, es, n - 1, i);
    } else {
      j := n - 1;
    }
  }

  /** The root is the one the registry gave at this time, or one it gave less than the store's lifetime before. */
  ghost predicate Recent(env: Env, ws: seq<World>, es: seq<Event>, n: nat, root: ArchRoot, at: int)
    requires n <= |es| < |ws|
  {
    exists given :: Given(env, ws, es, n, root, given) && (at == given || at - given < env.baselineTtl)
  }

  lemma CachedIsRecent(env: Env, ws: seq<World>, es: seq<Event>, j: nat, i: nat, root: ArchRoot, at: int)
    requires IsRun(env, ws, es) && j < |es| && CachesAt(ws, es, j, i, root, at)
    ensures Recent(env, ws, es, j, root, at)
  {
    var k := es[j].task;
    RunSteps(env, ws, es, j);
    if ws[j].tasks[k].phase.AwaitKvRoot? {
      StoredIsGiven(env, ws, es, j, root, es[j].reply.at);
    } else {
      StoringIsGiven(env, ws, es, j, k);
    }
  }

  /** Before the `n`th event a refresh of the task brought no root it could use. */
  ghost predicate RefreshFailedBefore(env: Env, ws: seq<World>, es: seq<Event>, n: nat, k: nat)
    requires n <= |es| < |ws|
  {
    exists j | 0 <= j < n :: FailsAt(env, ws, es, j, k)
  }

  ghost predicate FailsAt(env: Env, ws: seq<World>, es: seq<Event>, j: nat, k: nat)
    requires j < |es| < |ws|
  {
    && es[j].Resume? && es[j].task == k && k in ws[j].tasks
    && var p := ws[j].tasks[k].phase; p.AwaitRoot? && forall root :: !Gives(env, p, es[j].reply, root, p.at)
  }

  lemma FallbackFollowsFailure(env: Env, ws: seq<World>, es: seq<Event>, n: nat, k: nat)
    requires IsRun(env, ws, es) && n <= |es| && k in ws[n].tasks && ws[n].tasks[k].phase.AwaitFallbackRoot?
    ensures RefreshFailedBefore(env, ws, es, n, k)
  {
    var j := LastMove(env, ws, es, n, k);
    if es[j].Start? {
      StartsAt(env, ws, es, j);
    } else {
      RunSteps(env, ws, es, j);
      assert FailsAt(env, ws, es, j, k);
    }
  }

  /**
   The `j`th event gives the task its root: a cached one that has not expired, a stored one within
   the store's lifetime, one just fetched, or after a failed refresh any stored one.
   */
  ghost predicate TakesAt(env: Env, ws: seq<World>, es: seq<Event>, j: nat, k: nat, root: ArchRoot)
    requires j < |es| < |ws|
  {
    && es[j].Resume? && es[j].task == k && k in ws[j].tasks
    && match ws[j].tasks[k].phase
       case ReadBaseline =>
         exists i, at | 0 <= i < j ::
           && CachesAt(ws, es, i, ws[j].tasks[k].isolate, root, at) && es[j].now - at < MEMORY_TTL
           && Recent(env, ws, es, i, root, at)
       case AwaitKvRoot(at) =>
         Read(es, j, k, at) && exists given :: Given(env, ws, es, j, root, given) && at - given < env.baselineTtl
       case StoringRoot(at, _, _) => Read(es, j, k, at) && Given(env, ws, es, j, root, at)
       case AwaitFallbackRoot => RefreshFailedBefore(env, ws, es, j, k) && exists given :: Given(env, ws, es, j, root, given)
       case _ => false
  }

  lemma TakenIsFresh(env: Env, ws: seq<World>, es: seq<Event>, j: nat, k: nat, root: ArchRoot)
    requires IsRun(env, ws, es) && j < |es| && es[j].Resume? && es[j].task == k && k in ws[j].tasks
    requires CanReply(env, ws[j], ws[j].tasks[k], es[j].reply)
    requires var t := ws[j].tasks[k];
             TakenFrom(env, BaselineOf(ws[j], t.isolate), t.phase, es[j].now, es[j].reply, root)
    ensures TakesAt(env, ws, es, j, k, root)
  {
    var t := ws[j].tasks[k];
    match t.phase
    case ReadBaseline =>
      var c := BaselineOf(ws[j], t.isolate).value;
      var i := CachedIsTaken(env, ws, es, j, t.isolate);
      CachedIsRecent(env, ws, es, i, t.isolate, root, c.expiresAt - MEMORY_TTL);
    case AwaitKvRoot(at) =>
      AwaitsSince(env, ws, es, j, k);
      StoredIsGiven(env, ws, es, j, root, es[j].reply.at);
    case AwaitFallbackRoot =>
      FallbackFollowsFailure(env, ws, es, j, k);
      StoredIsGiven(env, ws, es, j, root, es[j].reply.at);
    case StoringRoot(_, _, _) => StoringIsGiven(env, ws, es, j, k);
  }

  /** Whatever else runs, the root a task works with was taken by one of its own steps. */
  lemma {:induction false} RootsAreTaken(env: Env, ws: seq<World>, es: seq<Event>, n: nat, k: nat) returns (j: nat)
    requires IsRun(env, ws, es) && n <= |es| && k in ws[n].tasks && RootOf(ws[n].tasks[k].phase).Some?
    ensures j < n && TakesAt(env, ws, es, j, k, RootOf(ws[n].tasks[k].phase).value)
    decreases n
  {
    j := LastMove(env, ws, es, n, k);
    if es[j].Start? {
      StartsAt(env, ws, es, j);
    } else {
      RunSteps(env, ws, es, j);
      if RootOf(ws[n].tasks[k].phase) == RootOf(ws[j].tasks[k].phase) {
        j := RootsAreTaken(env, ws, es, j, k);
      } else {
        TakenIsFresh(env, ws, es, j, k, RootOf(ws[n].tasks[k].phase).value);
      }
    }
  }

  function Max(a: int, b: int): int {
    if a < b then b else a
  }

  /** Of the times the task read, one is this close to when the registry gave the root, unless a refresh failed. */
  ghost predicate WithinLifetimes(env: Env, ws: seq<World>, es: seq<Event>, n: nat, k: nat, root: ArchRoot)
    requires n <= |es| < |ws|
  {
    exists time, given ::
      && Read(es, n, k, time) && Given(env, ws, es, n, root, given)
      && (time - given < MEMORY_TTL + Max(env.baselineTtl, 0) || RefreshFailedBefore(env, ws, es, n, k))
  }

  lemma ReadStays(es: seq<Event>, m: nat, n: nat, k: nat, time: int)
    requires m <= n <= |es| && Read(es, m, k, time)
    ensures Read(es, n, k, time)
  {
  }

  lemma FromMemory(env: Env, ws: seq<World>, es: seq<Event>, j: nat, n: nat, k: nat, root: ArchRoot, i: nat, at: int)
    requires IsRun(env, ws, es) && i < j < n <= |es| && Moves(es[j], k)
    requires es[j].now - at < MEMORY_TTL && Recent(env, ws, es, i, root, at)
    ensures WithinLifetimes(env, ws, es, n, k, root)
  {
    var given :| Given(env, ws, es, i, root, given) && (at == given || at - given < env.baselineTtl);
    GivenStays(env, ws, es, i, n, root, given);
    assert Read(es, n, k, es[j].now);
  }

  lemma FromElsewhere(env: Env, ws: seq<World>, es: seq<Event>, j: nat, n: nat, k: nat, root: ArchRoot, time: int, given: int)
    requires IsRun(env, ws, es) && j < n <= |es| && Read(es, j, k, time) && Given(env, ws, es, j, root, given)
    requires time == given || time - given < env.baselineTtl
    ensures WithinLifetimes(env, ws, es, n, k, root)
  {
    ReadStays(es, j, n, k, time);
    GivenStays(env, ws, es, j, n, root, given);
  }

  lemma FromFallback(env: Env, ws: seq<World>, es: seq<Event>, j: nat, n: nat, k: nat, root: ArchRoot, given: int)
    requires IsRun(env, ws, es) && j < n <= |es| && Moves(es[j], k) && Given(env, ws, es, j, root, given)
    requires RefreshFailedBefore(env, ws, es, j, k)
    ensures WithinLifetimes(env, ws, es, n, k, root)
  {
    GivenStays(env, ws, es, j, n, root, given);
    var f :| 0 <= f < j && FailsAt(env, ws, es, f, k);
    assert FailsAt(env, ws, es, f, k) && f < n;
    assert Read(es, n, k, es[j].now);
  }

  lemma TakenWithinLifetimes(env: Env, ws: seq<World>, es: seq<Event>, j: nat, n: nat, k: nat, root: ArchRoot)
    requires IsRun(env, ws, es) && j < n <= |es| && TakesAt(env, ws, es, j, k, root)
    ensures WithinLifetimes(env, ws, es, n, k, root)
  {
    match ws[j].tasks[k].phase
    case ReadBaseline =>
      var i, at :| 0 <= i < j && CachesAt(ws, es, i, ws[j].tasks[k].isolate, root, at) && es[j].now - at < MEMORY_TTL
                   && Recent(env, ws, es, i, root, at);
      FromMemory(env, ws, es, j, n, k, root, i, at);
    case AwaitKvRoot(at) =>
      var given :| Given(env, ws, es, j, root, given) && at - given < env.baselineTtl;
      FromElsewhere(env, ws, es, j, n, k, root, at, given);
    case StoringRoot(at, _, _) => FromElsewhere(env, ws, es, j, n, k, root, at, at);
    case AwaitFallbackRoot =>
      var given :| Given(env, ws, es, j, root, given);
      FromFallback(env, ws, es, j, n, k, root, given);
  }

  /**
   Over every run, the root behind an answer was given by the registry less than the two cache
   lifetimes before a time that the lookup read itself, unless a refresh of the lookup failed.
   */
  lemma AnswersAreFresh(env: Env, ws: seq<World>, es: seq<Event>, n: nat, k: nat)
    requires IsRun(env, ws, es) && n <= |es| && k in ws[n].tasks && ws[n].tasks[k].phase.Done?
    ensures WithinLifetimes(env, ws, es, n, k, ws[n].tasks[k].phase.root)
  {
    var j := RootsAreTaken(env, ws, es, n, k);
    TakenWithinLifetimes(env, ws, es, j, n, k, ws[n].tasks[k].phase.root);
  }

  // --- Which tier is asked ---------------------------------------------------------------------

  /** A task turns to a slower tier only for what the tier before it could not give. */
  ghost predicate AskStep(env: Env, m: Memory, p: Phase, now: int, reply: Reply, p': Phase) {
    && (p'.AwaitKvRoot? ==> p.ReadBaseline? && (m.baseline.None? || now >= m.baseline.value.expiresAt))
    && (p'.AwaitRoot? && p'.healing.None? ==>
          && p.AwaitKvRoot?
          && !(reply.KvRoot? && p.at - reply.at < env.baselineTtl && env.rootAllowed(reply.root)))
    && (p'.AwaitKvShard? ==>
          && p.HaveRoot? && p'.d.entryCount != 0
          && !(p'.d.shardId in m.shards && m.shards[p'.d.shardId].blobDigest == p'.d.blobDigest
               && now < m.shards[p'.d.shardId].expiresAt))
    && (p'.AwaitShard? ==>
          p.AwaitKvShard? && p'.d == p.d && !(reply.KvShard? && env.payloadAllowed(reply.payload, p.d.shardId)))
  }

  lemma BaselineAsks(env: Env, w: World, k: nat, now: int, reply: Reply)
    requires k in w.tasks && AtBaseline(w.tasks[k].phase)
    ensures var t := w.tasks[k];
            AskStep(env, MemoryOf(w, t.isolate), t.phase, now, reply, StepBaseline(env, w, k, now, reply).tasks[k].phase)
  {
  }

  lemma RefreshAsks(env: Env, w: World, k: nat, now: int, reply: Reply)
    requires k in w.tasks && AtRefresh(w.tasks[k].phase)
    ensures var t := w.tasks[k];
            AskStep(env, MemoryOf(w, t.isolate), t.phase, now, reply, StepRefresh(env, w, k, reply).tasks[k].phase)
  {
  }

  lemma ShardAsks(env: Env, w: World, k: nat, now: int, reply: Reply)
    requires k in w.tasks && AtShard(w.tasks[k].phase)
    ensures var t := w.tasks[k];
            AskStep(env, MemoryOf(w, t.isolate), t.phase, now, reply, StepShard(env, w, k, reply).tasks[k].phase)
  {
  }

  lemma RoutedAsks(env: Env, w: World, k: nat, now: int, reply: Reply)
    requires k in w.tasks && w.tasks[k].phase.HaveRoot?
    ensures var t := w.tasks[k];
            AskStep(env, MemoryOf(w, t.isolate), t.phase, now, reply,
                    StepRouted(w, k, now, t.phase.root, t.phase.healed).tasks[k].phase)
  {
  }

  lemma OtherAsks(env: Env, w: World, k: nat, now: int, reply: Reply)
    requires k in w.tasks
    requires var p := w.tasks[k].phase; !AtBaseline(p) && !AtRefresh(p) && !AtShard(p) && !p.HaveRoot?
    ensures var t := w.tasks[k];
            AskStep(env, MemoryOf(w, t.isolate), t.phase, now, reply, PhaseAfter(env, w, k, now, reply))
  {
  }

  lemma StepAsks(env: Env, w: World, k: nat, now: int, reply: Reply)
    requires k in w.tasks
    ensures var t := w.tasks[k];
            AskStep(env, MemoryOf(w, t.isolate), t.phase, now, reply, PhaseAfter(env, w, k, now, reply))
  {
    var p := w.tasks[k].phase;
    if AtBaseline(p) {
      BaselineAsks(env, w, k, now, reply);
    } else if AtRefresh(p) {
      RefreshAsks(env, w, k, now, reply);
    } else if AtShard(p) {
      ShardAsks(env, w, k, now, reply);
    } else if p.HaveRoot? {
      RoutedAsks(env, w, k, now, reply);
    } else {
      OtherAsks(env, w, k, now, reply);
    }
  }

  /** Over every run, a lookup waits for a tier because its own step before found the faster one of no use. */
  lemma CachesComeFirst(env: Env, ws: seq<World>, es: seq<Event>, n: nat, k: nat) returns (j: nat)
    requires IsRun(env, ws, es) && n <= |es| && k in ws[n].tasks && !ws[n].tasks[k].goal.Warm?
    requires !ws[n].tasks[k].phase.ReadBaseline?
    ensures j < n && es[j].Resume? && es[j].task == k && k in ws[j].tasks
    ensures var t := ws[j].tasks[k];
            AskStep(env, MemoryOf(ws[j], t.isolate), t.phase, es[j].now, es[j].reply, ws[n].tasks[k].phase)
  {
    j := LastMove(env, ws, es, n, k);
    assert Allowed(env, ws[j], es[j]) && ws[j + 1] == Next(env, ws[j], es[j]);
    if es[j].Resume? { StepAsks(env, ws[j], k, es[j].now, es[j].reply); }
  }

  // --- What a lookup leaves behind -------------------------------------------------------------

  /** Over every run, a root that a task has just fetched is in the key-value store. */
  lemma FetchedIsStored(env: Env, ws: seq<World>, es: seq<Event>, n: nat, k: nat)
    requires IsRun(env, ws, es) && n <= |es| && k in ws[n].tasks && ws[n].tasks[k].phase.StoringRoot?
    ensures (ws[n].tasks[k].phase.root, ws[n].tasks[k].phase.at) in ws[n].kvRoots
  {
    var j := LastMove(env, ws, es, n, k);
    if es[j].Start? {
      StartsAt(env, ws, es, j);
    } else {
      assert Allowed(env, ws[j], es[j]) && ws[j + 1] == Next(env, ws[j], es[j]);
      RunSteps(env, ws, es, j);
      GivesIsStored(env, ws[j], k, es[j].now, es[j].reply);
      RootStays(env, ws, es, j + 1, n);
    }
  }

  lemma GivesIsStored(env: Env, w: World, k: nat, now: int, reply: Reply)
    requires k in w.tasks && w.tasks[k].phase.AwaitRoot? && reply.RemoteRoot?
    requires Gives(env, w.tasks[k].phase, reply, reply.root, w.tasks[k].phase.at)
    ensures (reply.root, w.tasks[k].phase.at) in StepTask(env, w, k, now, reply).kvRoots
  {
  }

  lemma RefreshKeepsRoots(env: Env, w: World, k: nat, reply: Reply)
    requires k in w.tasks && AtRefresh(w.tasks[k].phase)
    ensures w.kvRoots <= StepRefresh(env, w, k, reply).kvRoots
  {
  }

  lemma EventKeepsRoots(env: Env, w: World, e: Event)
    requires Allowed(env, w, e)
    ensures w.kvRoots <= Next(env, w, e).kvRoots
  {
    if e.Resume? {
      var p := w.tasks[e.task].phase;
      if AtBaseline(p) {
        BaselineStores(env, w, e.task, e.now, e.reply);
      } else if AtRefresh(p) {
        RefreshKeepsRoots(env, w, e.task, e.reply);
      } else if AtShard(p) {
        ShardStores(env, w, e.task, e.reply);
      } else {
        OtherStores(env, w, e.task, e.now, e.reply);
      }
    }
  }

  lemma RunKeepsRoots(env: Env, ws: seq<World>, es: seq<Event>, j: nat)
    requires IsRun(env, ws, es) && j < |es|
    ensures ws[j].kvRoots <= ws[j + 1].kvRoots
  {
    assert Allowed(env, ws[j], es[j]) && ws[j + 1] == Next(env, ws[j], es[j]);
    EventKeepsRoots(env, ws[j], es[j]);
  }

  /** The roots in the key-value store before, between and after the events of a run. */
  ghost function AllStored(ws: seq<World>): (r: seq<set<(ArchRoot, int)>>)
    ensures |r| == |ws|
  {
    if ws == [] then [] else AllStored(ws[..|ws| - 1]) + [ws[|ws| - 1].kvRoots]
  }

  lemma {:induction false} AllStoredAt(ws: seq<World>, j: nat)
    requires j < |ws|
    ensures AllStored(ws)[j] == ws[j].kvRoots
  {
    if j < |ws| - 1 { AllStoredAt(ws[..|ws| - 1], j); }
  }

  lemma {:induction false} ChainGrows<T>(a: seq<set<T>>, m: nat, n: nat)
    requires m <= n < |a| && forall j | 0 < j < |a| :: a[j - 1] <= a[j]
    ensures a[m] <= a[n]
    decreases n
  {
    if m < n { ChainGrows(a, m, n - 1); }
  }

  lemma RootStays(env: Env, ws: seq<World>, es: seq<Event>, m: nat, n: nat)
    requires IsRun(env, ws, es) && m <= n <= |es|
    ensures ws[m].kvRoots <= ws[n].kvRoots
  {
    var a := AllStored(ws);
    forall j | 0 < j < |a| ensures a[j - 1] <= a[j] {
      AllStoredAt(ws, j - 1);
      AllStoredAt(ws, j);
      RunKeepsRoots(env, ws, es, j - 1);
    }
    ChainGrows(a, m, n);
    AllStoredAt(ws, m);
    AllStoredAt(ws, n);
  }

  /** A root or a shard that a task takes from a slower tier is cached for the lifetime of memory. */
  ghost predicate Leaves(w': World, t: Task, p': Phase) {
    var m := MemoryOf(w', t.isolate);
    && ((t.phase.AwaitKvRoot? || t.phase.StoringRoot?) && p'.HaveRoot? ==>
          m.baseline == Some(CachedRoot(p'.root, t.phase.at + MEMORY_TTL)))
    && ((t.phase.AwaitKvShard? || t.phase.StoringShard?) && p'.GotShard? ==>
          && t.phase.d.shardId in m.shards
          && m.shards[t.phase.d.shardId] == CachedShard(p'.payload, p'.names, t.phase.d.blobDigest, t.phase.at + MEMORY_TTL))
  }

  lemma BaselineLeaves(env: Env, w: World, k: nat, now: int, reply: Reply)
    requires k in w.tasks && AtBaseline(w.tasks[k].phase)
    ensures var w' := StepBaseline(env, w, k, now, reply); Leaves(w', w.tasks[k], w'.tasks[k].phase)
  {
  }

  lemma RefreshLeaves(env: Env, w: World, k: nat, reply: Reply)
    requires k in w.tasks && AtRefresh(w.tasks[k].phase)
    ensures var w' := StepRefresh(env, w, k, reply); Leaves(w', w.tasks[k], w'.tasks[k].phase)
  {
  }

  lemma ShardLeaves(env: Env, w: World, k: nat, reply: Reply)
    requires k in w.tasks && AtShard(w.tasks[k].phase)
    ensures var w' := StepShard(env, w, k, reply); Leaves(w', w.tasks[k], w'.tasks[k].phase)
  {
  }

  lemma TaskLeaves(env: Env, w: World, k: nat, now: int, reply: Reply)
    requires k in w.tasks
    ensures Leaves(StepTask(env, w, k, now, reply), w.tasks[k], PhaseAfter(env, w, k, now, reply))
  {
    var p := w.tasks[k].phase;
    if AtBaseline(p) {
      BaselineLeaves(env, w, k, now, reply);
    } else if AtRefresh(p) {
      RefreshLeaves(env, w, k, reply);
    } else if AtShard(p) {
      ShardLeaves(env, w, k, reply);
    }
  }

  lemma LookupsFillCaches(env: Env, ws: seq<World>, es: seq<Event>, j: nat)
    requires IsRun(env, ws, es) && j < |es| && es[j].Resume?
    ensures var k := es[j].task;
            k in ws[j].tasks && k in ws[j + 1].tasks && Leaves(ws[j + 1], ws[j].tasks[k], ws[j + 1].tasks[k].phase)
  {
    assert Allowed(env, ws[j], es[j]) && ws[j + 1] == Next(env, ws[j], es[j]);
    StepTouches(env, ws[j], es[j].task, es[j].now, es[j].reply);
    TaskLeaves(env, ws[j], es[j].task, es[j].now, es[j].reply);
  }

  /** A shard that a task has just fetched is in the key-value store. */
  lemma FetchedShardIsStored(env: Env, w: World, k: nat, reply: Reply)
    requires k in w.tasks && AtShard(w.tasks[k].phase)
    ensures var w' := StepShard(env, w, k, reply);
            w'.tasks[k].phase.StoringShard? ==>
              && reply.RemoteShard? && w'.tasks[k].phase.payload == reply.payload
              && (w'.tasks[k].phase.d.blobDigest, reply.payload) in w'.kvShards
  {
  }

  // --- Misses ----------------------------------------------------------------------------------

  /** Why a lookup of a hash may answer that there is nothing, at the event that says so. */
  ghost predicate Excused(env: Env, w: World, t: Task, now: int, reply: Reply) {
    match t.phase
    case Missed(_, healed) => healed || now - MemoryOf(w, t.isolate).lastRevalidate < REVALIDATE_DEBOUNCE
    case AwaitHead(_) => !reply.HeadChanged?
    case AwaitRoot(at, _, healing) => healing.Some? && forall root :: !Gives(env, t.phase, reply, root, at)
    case _ => false
  }

  lemma RefreshExcuses(env: Env, w: World, k: nat, reply: Reply)
    requires k in w.tasks && AtRefresh(w.tasks[k].phase) && StepRefresh(env, w, k, reply).tasks[k].phase.Done?
    ensures Excused(env, w, w.tasks[k], 0, reply)
  {
  }

  lemma OtherExcuses(env: Env, w: World, k: nat, now: int, reply: Reply)
    requires k in w.tasks && w.tasks[k].goal.NarInfo? && !w.tasks[k].phase.Done? && !w.tasks[k].phase.Scan?
    requires var p := w.tasks[k].phase; !AtBaseline(p) && !AtRefresh(p) && !AtShard(p)
    requires var p' := PhaseAfter(env, w, k, now, reply); p'.Done? && p'.answer == NotFound
    ensures Excused(env, w, w.tasks[k], now, reply)
  {
  }

  lemma StepExcuses(env: Env, w: World, k: nat, now: int, reply: Reply)
    requires k in w.tasks && w.tasks[k].goal.NarInfo? && !w.tasks[k].phase.Done? && !w.tasks[k].phase.Scan?
    requires var p' := PhaseAfter(env, w, k, now, reply); p'.Done? && p'.answer == NotFound
    ensures Excused(env, w, w.tasks[k], now, reply)
  {
    var p := w.tasks[k].phase;
    if AtBaseline(p) {
      BaselinePhase(env, w, k, now, reply);
    } else if AtRefresh(p) {
      RefreshExcuses(env, w, k, reply);
    } else if AtShard(p) {
      ShardPhase(env, w, k, reply);
    } else {
      OtherExcuses(env, w, k, now, reply);
    }
  }

  /** Only a lookup of a NAR name scans. */
  lemma ScansForNames(env: Env, ws: seq<World>, es: seq<Event>, n: nat, k: nat)
    requires IsRun(env, ws, es) && n <= |es| && k in ws[n].tasks && ws[n].tasks[k].phase.Scan?
    ensures ws[n].tasks[k].goal.NarDigest?
  {
    WorkerLaws.RunsStayCoherent(env, ws, es, n);
    assert WorkerLaws.TaskOk(env.codec, ws[n].blobs, ws[n].roots, ws[n].tasks[k]);
  }

  /**
   Over every run, a lookup of a hash answers that there is nothing only after it has refreshed,
   or inside the debounce interval, or when the registry shows no newer root or cannot be used.
   */
  lemma {:induction false} MissesAreExcused(env: Env, ws: seq<World>, es: seq<Event>, n: nat, k: nat) returns (j: nat)
    requires IsRun(env, ws, es) && n <= |es| && k in ws[n].tasks && ws[n].tasks[k].goal.NarInfo?
    requires ws[n].tasks[k].phase.Done? && ws[n].tasks[k].phase.answer == NotFound
    ensures j < n && es[j].Resume? && es[j].task == k && k in ws[j].tasks
    ensures Excused(env, ws[j], ws[j].tasks[k], es[j].now, es[j].reply)
    decreases n
  {
    j := LastMove(env, ws, es, n, k);
    if es[j].Start? {
      StartsAt(env, ws, es, j);
    } else {
      assert Allowed(env, ws[j], es[j]) && ws[j + 1] == Next(env, ws[j], es[j]);
      if ws[j].tasks[k].phase.Done? {
        assert ws[j + 1] == ws[j];
        j := MissesAreExcused(env, ws, es, j, k);
      } else {
        if ws[j].tasks[k].phase.Scan? { ScansForNames(env, ws, es, j, k); }
        StepExcuses(env, ws[j], k, es[j].now, es[j].reply);
      }
    }
  }

  // --- Progress --------------------------------------------------------------------------------

  /** The operation the task waits for succeeds; a store that has nothing is no failure. */
  ghost predicate Succeeds(env: Env, p: Phase, reply: Reply) {
    match p
    case AwaitKvRoot(_) => !reply.Broken?
    case AwaitRoot(at, _, healing) => reply.RemoteRoot? && reply.stored && env.rootAllowed(reply.root)
    case AwaitFallbackRoot => reply.KvRoot? && env.rootAllowed(reply.root)
    case AwaitShard(_, _, _, _) => reply.RemoteShard? && reply.stored
    case AwaitFallbackShard(_, _, d) => reply.KvShard? && env.payloadAllowed(reply.payload, d.shardId)
    case _ => true
  }

  const MAX_STEPS: nat := 20

  /** How many steps a task has at most before it; a failed task is off the scale. */
  function Rank(p: Phase): nat {
    match p
    case ReadBaseline => MAX_STEPS
    case AwaitKvRoot(_) => 19
    case AwaitRoot(_, _, healing) => if healing.Some? then 9 else 18
    case StoringRoot(_, _, healed) => if healed then 8 else 17
    case AwaitFallbackRoot => 17
    case HaveRoot(_, healed) => if healed then 7 else 16
    case AwaitKvShard(_, healed, _, _) => if healed then 6 else 15
    case AwaitShard(_, healed, _, _) => if healed then 5 else 14
    case StoringShard(_, healed, _, _, _, _) => if healed then 4 else 13
    case AwaitFallbackShard(_, healed, _) => if healed then 4 else 13
    case GotShard(_, healed, _, _, _) => if healed then 3 else 12
    case Missed(_, healed) => if healed then 2 else 11
    case AwaitHead(_) => 10
    case Scan(_) => 1
    case Done(_, _) => 0
    case Failed => MAX_STEPS + 1
  }

  /** One step less is left, or none. */
  ghost predicate Advances(p: Phase, p': Phase) {
    Rank(p') < Rank(p) || Rank(p') == 0
  }

  lemma BaselineAdvances(env: Env, w: World, k: nat, now: int, reply: Reply)
    requires k in w.tasks && AtBaseline(w.tasks[k].phase) && Succeeds(env, w.tasks[k].phase, reply)
    ensures Advances(w.tasks[k].phase, StepBaseline(env, w, k, now, reply).tasks[k].phase)
  {
  }

  lemma RefreshAdvances(env: Env, w: World, k: nat, reply: Reply)
    requires k in w.tasks && AtRefresh(w.tasks[k].phase) && Succeeds(env, w.tasks[k].phase, reply)
    ensures Advances(w.tasks[k].phase, StepRefresh(env, w, k, reply).tasks[k].phase)
  {
  }

  lemma ShardAdvances(env: Env, w: World, k: nat, reply: Reply)
    requires k in w.tasks && AtShard(w.tasks[k].phase) && Succeeds(env, w.tasks[k].phase, reply)
    ensures Advances(w.tasks[k].phase, StepShard(env, w, k, reply).tasks[k].phase)
  {
  }

  lemma RoutedAdvances(w: World, k: nat, now: int, root: ArchRoot, healed: bool)
    requires k in w.tasks
    ensures Advances(HaveRoot(root, healed), StepRouted(w, k, now, root, healed).tasks[k].phase)
  {
  }

  lemma MissAdvances(w: World, k: nat, now: int, root: ArchRoot, healed: bool)
    requires k in w.tasks
    ensures Advances(Missed(root, healed), StepMiss(w, k, now, root, healed).tasks[k].phase)
  {
  }

  lemma ScanAdvances(w: World, k: nat, root: ArchRoot, reply: Reply)
    requires k in w.tasks
    ensures Advances(Scan(root), StepScan(w, k, root, reply).tasks[k].phase)
  {
  }

  lemma ShortAdvances(env: Env, w: World, k: nat, now: int, reply: Reply)
    requires k in w.tasks
    requires var p := w.tasks[k].phase; p.GotShard? || p.AwaitHead? || p.Done?
    ensures Advances(w.tasks[k].phase, StepTask(env, w, k, now, reply).tasks[k].phase)
  {
  }

  lemma OtherAdvances(env: Env, w: World, k: nat, now: int, reply: Reply)
    requires k in w.tasks && !w.tasks[k].phase.Failed?
    requires var p := w.tasks[k].phase; !AtBaseline(p) && !AtRefresh(p) && !AtShard(p)
    ensures Advances(w.tasks[k].phase, PhaseAfter(env, w, k, now, reply))
  {
    match w.tasks[k].phase
    case HaveRoot(root, healed) => RoutedAdvances(w, k, now, root, healed);
    case Missed(root, healed) => MissAdvances(w, k, now, root, healed);
    case Scan(root) => ScanAdvances(w, k, root, reply);
    case _ => ShortAdvances(env, w, k, now, reply);
  }

  lemma StepAdvances(env: Env, w: World, k: nat, now: int, reply: Reply)
    requires k in w.tasks && !w.tasks[k].phase.Failed? && Succeeds(env, w.tasks[k].phase, reply)
    ensures Advances(w.tasks[k].phase, PhaseAfter(env, w, k, now, reply))
  {
    var p := w.tasks[k].phase;
    if AtBaseline(p) {
      BaselineAdvances(env, w, k, now, reply);
    } else if AtRefresh(p) {
      RefreshAdvances(env, w, k, reply);
    } else if AtShard(p) {
      ShardAdvances(env, w, k, reply);
    } else {
      OtherAdvances(env, w, k, now, reply);
    }
  }

  predicate IsStepOf(e: Event, k: nat) {
    e.Resume? && e.task == k
  }

  /** How many of the events are steps of the task. */
  function StepsOf(es: seq<Event>, k: nat): nat {
    if es == [] then 0 else StepsOf(es[..|es| - 1], k) + (if IsStepOf(es[|es| - 1], k) then 1 else 0)
  }

  ghost predicate AllSucceed(env: Env, ws: seq<World>, es: seq<Event>, i: nat, n: nat, k: nat)
    requires n <= |es| < |ws|
  {
    forall j | i <= j < n && es[j].Resume? && es[j].task == k && k in ws[j].tasks ::
      Succeeds(env, ws[j].tasks[k].phase, es[j].reply)
  }

  function StepsLeft(w: World, k: nat): nat {
    if k in w.tasks then Rank(w.tasks[k].phase) else MAX_STEPS + 1
  }

  lemma StepLeavesLess(env: Env, w: World, e: Event, k: nat)
    requires Allowed(env, w, e) && StepsLeft(w, k) <= MAX_STEPS
    requires IsStepOf(e, k) && k in w.tasks ==> Succeeds(env, w.tasks[k].phase, e.reply)
    ensures Falls(StepsLeft(w, k), IsStepOf(e, k), StepsLeft(Next(env, w, e), k))
  {
    EventTouches(env, w, e, k);
    if IsStepOf(e, k) { StepAdvances(env, w, k, e.now, e.reply); }
  }

  /** A step of the task leaves fewer, another event as many. */
  predicate Falls(was: nat, step: bool, left: nat) {
    if step then left < was || left == 0 else left == was
  }

  lemma RunLeavesLess(env: Env, ws: seq<World>, es: seq<Event>, j: nat, k: nat, was: nat, left: nat)
    requires IsRun(env, ws, es) && j < |es| && AllSucceed(env, ws, es, j, j + 1, k)
    requires was == StepsLeft(ws[j], k) <= MAX_STEPS && left == StepsLeft(ws[j + 1], k)
    ensures Falls(was, IsStepOf(es[j], k), left)
  {
    assert Allowed(env, ws[j], es[j]) && ws[j + 1] == Next(env, ws[j], es[j]);
    StepLeavesLess(env, ws[j], es[j], k);
  }

  /** The steps left before, between and after the events of a run. */
  ghost function AllLeft(ws: seq<World>, k: nat): (r: seq<nat>)
    ensures |r| == |ws|
  {
    if ws == [] then [] else AllLeft(ws[..|ws| - 1], k) + [StepsLeft(ws[|ws| - 1], k)]
  }

  lemma {:induction false} AllLeftAt(ws: seq<World>, k: nat, j: nat)
    requires j < |ws|
    ensures AllLeft(ws, k)[j] == StepsLeft(ws[j], k)
  {
    if j < |ws| - 1 { AllLeftAt(ws[..|ws| - 1], k, j); }
  }

  lemma LeftFalls(env: Env, ws: seq<World>, es: seq<Event>, left: seq<nat>, i: nat, j: nat, n: nat, k: nat)
    requires IsRun(env, ws, es) && i <= j < n <= |es| && AllSucceed(env, ws, es, i, n, k)
    requires left == AllLeft(ws, k) && left[j] <= MAX_STEPS
    ensures Falls(left[j], IsStepOf(es[j], k), left[j + 1])
  {
    AllLeftAt(ws, k, j);
    AllLeftAt(ws, k, j + 1);
    RunLeavesLess(env, ws, es, j, k, left[j], left[j + 1]);
  }

  lemma {:induction false} StepsRunOut(env: Env, ws: seq<World>, es: seq<Event>, left: seq<nat>, i: nat, n: nat, k: nat)
    requires IsRun(env, ws, es) && i <= n <= |es| && AllSucceed(env, ws, es, i, n, k)
    requires left == AllLeft(ws, k) && left[i] <= MAX_STEPS
    ensures left[n] == 0 || left[n] + StepsOf(es[i..n], k) <= left[i]
    decreases n
  {
    if i < n {
      StepsRunOut(env, ws, es, left, i, n - 1, k);
      LeftFalls(env, ws, es, left, i, n - 1, n, k);
      StepsNext(es, i, n, k);
    }
  }

  lemma StepsNext(es: seq<Event>, i: nat, n: nat, k: nat)
    requires i < n <= |es|
    ensures StepsOf(es[i..n], k) == StepsOf(es[i..n - 1], k) + (if IsStepOf(es[n - 1], k) then 1 else 0)
  {
    assert es[i..n][..|es[i..n]| - 1] == es[i..n - 1];
  }

  lemma NoneLeftIsDone(ws: seq<World>, n: nat, k: nat)
    requires n < |ws|
    ensures AllLeft(ws, k)[n] == 0 <==> k in ws[n].tasks && ws[n].tasks[k].phase.Done?
    ensures k in ws[n].tasks && !ws[n].tasks[k].phase.Failed? ==> AllLeft(ws, k)[n] <= MAX_STEPS
  {
    AllLeftAt(ws, k, n);
  }

  /** A lookup whose operations all succeed ends with an answer after at most twenty steps. */
  lemma LookupsEnd(env: Env, ws: seq<World>, es: seq<Event>, i: nat, n: nat, k: nat)
    requires IsRun(env, ws, es) && i <= n <= |es| && k in ws[i].tasks && !ws[i].tasks[k].phase.Failed?
    requires AllSucceed(env, ws, es, i, n, k) && StepsOf(es[i..n], k) >= MAX_STEPS
    ensures k in ws[n].tasks && ws[n].tasks[k].phase.Done?
  {
    NoneLeftIsDone(ws, i, k);
    StepsRunOut(env, ws, es, AllLeft(ws, k), i, n, k);
    NoneLeftIsDone(ws, n, k);
  }
}
