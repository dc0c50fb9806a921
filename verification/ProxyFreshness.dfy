/**
 Where the proxy's answers come from, over every run: from the hot table first, then from a
 root that is younger than its lifetime, and a miss for want of a shard only when the registry
 gave none. Every query is answered after a few steps.
 */
module ProxyFreshness {
  import opened Basics
  import opened Types
  import opened Merkle
  import opened Root
  import opened Store
  import opened Index
  import opened Coherence
  import opened Worker
  import opened Proxy

  // --- One step --------------------------------------------------------------------------------

  /** The root a query has taken. */
  function TakenRoot(p: ProxyPhase): Option<ArchRoot> {
    match p
    case Route(root) => Some(root)
    case AwaitBlob(root, _) => Some(root)
    case Answered(read, _) => read
    case _ => None
  }

  predicate Cold(p: ProxyPhase) {
    !p.ReadHot? && !(p.Answered? && p.answer.Hot?)
  }

  /** Why a query can be in its new phase. */
  ghost predicate QueryStep(cfg: Config, s: State, q: Query, now: int, reply: ProxyReply, blank: ArchRoot, p': ProxyPhase) {
    var p := q.phase;
    && !p'.ReadHot?
    && (p'.Answered? && p'.answer.Hot? ==> p == p' || (p.ReadHot? && q.hash in s.hot && s.hot[q.hash] == p'.answer.entry))
    && (Cold(p') ==> Cold(p) || (p.ReadHot? && q.hash !in s.hot && p'.LoadBaseline?))
    && (p'.AwaitRemote? ==> p.LoadBaseline? && (s.baseline.None? || now >= s.baseline.value.expiresAt))
    && (p'.AwaitBackup? ==> p.AwaitRemote? && !reply.Root?)
    && (p'.CacheRoot? ==>
          || (p.AwaitRemote? && reply == Root(p'.root))
          || (p.AwaitBackup? && p'.root == if reply.Backup? && cfg.rootAllowed(reply.root) then reply.root else blank))
    && (p'.Route? ==>
          || p == CacheRoot(p'.root)
          || (p.LoadBaseline? && s.baseline.Some? && s.baseline.value.root == p'.root && now < s.baseline.value.expiresAt))
    && (p'.AwaitBlob? ==> p == Route(p'.root))
    && (p'.Answered? && p'.answer.Unreachable? ==> p == p' || (p.AwaitBlob? && Some(p.root) == p'.read && !reply.Blob?))
    && (p'.Answered? && !p'.answer.Hot? ==> TakenRoot(p) == TakenRoot(p'))
  }

  ghost function QuerySteps(
    cfg: Config, s: State, q: Query, now: int, reply: ProxyReply, blank: ArchRoot): ProxyPhase -> bool
  {
    (p': ProxyPhase) => QueryStep(cfg, s, q, now, reply, blank, p')
  }

  lemma RootStep(cfg: Config, s: State, k: nat, now: int, reply: ProxyReply, blank: ArchRoot)
    requires k in s.queries && AtRoot(s.queries[k].phase)
    ensures QueryStep(cfg, s, s.queries[k], now, reply, blank, StepRoot(cfg, s, k, now, reply, blank).queries[k].phase)
  {
  }

  lemma RouteStep(cfg: Config, s: State, k: nat, now: int, reply: ProxyReply, blank: ArchRoot)
    requires k in s.queries && s.queries[k].phase.Route?
    ensures QueryStep(cfg, s, s.queries[k], now, reply, blank, StepRoute(s, k, now, s.queries[k].phase.root).queries[k].phase)
  {
  }

  /** Only the phase of the query may differ among the queries. */
  ghost predicate OneMoves(s: State, s': State, k: nat)
    requires k in s.queries
  {
    && k in s'.queries && s'.queries[k].hash == s.queries[k].hash
    && forall j | j != k :: (j in s'.queries <==> j in s.queries) && (j in s.queries ==> s'.queries[j] == s.queries[j])
  }

  ghost function Moving(s: State, k: nat): State -> bool
    requires k in s.queries
  {
    (s': State) => OneMoves(s, s', k)
  }

  lemma RootMoves(cfg: Config, s: State, k: nat, now: int, reply: ProxyReply, blank: ArchRoot)
    requires k in s.queries && AtRoot(s.queries[k].phase)
    ensures Moving(s, k)(StepRoot(cfg, s, k, now, reply, blank))
  {
  }

  lemma RouteMoves(s: State, k: nat, now: int, root: ArchRoot)
    requires k in s.queries
    ensures Moving(s, k)(StepRoute(s, k, now, root))
  {
  }

  lemma ProceedMoves(cfg: Config, s: State, k: nat, now: int, reply: ProxyReply, blank: ArchRoot)
    requires k in s.queries
    ensures Moving(s, k)(Proceed(cfg, s, k, now, reply, blank))
  {
    if AtRoot(s.queries[k].phase) {
      RootMoves(cfg, s, k, now, reply, blank);
    } else if s.queries[k].phase.Route? {
      RouteMoves(s, k, now, s.queries[k].phase.root);
    }
  }

  lemma ProceedSteps(cfg: Config, s: State, k: nat, now: int, reply: ProxyReply, blank: ArchRoot)
    requires k in s.queries
    ensures k in Proceed(cfg, s, k, now, reply, blank).queries
    ensures QueryStep(cfg, s, s.queries[k], now, reply, blank, Proceed(cfg, s, k, now, reply, blank).queries[k].phase)
  {
    ProceedMoves(cfg, s, k, now, reply, blank);
    if AtRoot(s.queries[k].phase) {
      RootStep(cfg, s, k, now, reply, blank);
    } else if s.queries[k].phase.Route? {
      RouteStep(cfg, s, k, now, reply, blank);
    }
  }

  // --- Runs ------------------------------------------------------------------------------------

  predicate Advances(e: ProxyEvent, k: nat) {
    e.Proceeds? && e.query == k
  }

  lemma EventMoves(cfg: Config, s: State, e: ProxyEvent, k: nat)
    requires Permitted(cfg, s, e)
    ensures Advances(e, k) ==>
              && k in s.queries && k in After(cfg, s, e).queries && After(cfg, s, e).queries[k].hash == s.queries[k].hash
              && QuerySteps(cfg, s, s.queries[k], e.now, e.reply, e.blank)(After(cfg, s, e).queries[k].phase)
    ensures !Advances(e, k) && k in After(cfg, s, e).queries ==>
              (e.Asks? && e.query == k && After(cfg, s, e).queries[k].phase == ReadHot)
              || (k in s.queries && After(cfg, s, e).queries[k] == s.queries[k])
  {
    if e.Proceeds? {
      ProceedMoves(cfg, s, e.query, e.now, e.reply, e.blank);
      ProceedSteps(cfg, s, e.query, e.now, e.reply, e.blank);
    }
  }

  /** Where a query stands is what its last step left, unless it has not begun. */
  lemma {:induction false} LastStep(cfg: Config, ss: seq<State>, es: seq<ProxyEvent>, n: nat, k: nat) returns (j: nat)
    requires IsProxyRun(cfg, ss, es) && n < |ss| && k in ss[n].queries && !ss[n].queries[k].phase.ReadHot?
    ensures j < n && Advances(es[j], k) && k in ss[j].queries && ss[j].queries[k].hash == ss[n].queries[k].hash
    ensures MayReply(cfg, ss[j], ss[j].queries[k], es[j].reply, es[j].blank)
    ensures QuerySteps(cfg, ss[j], ss[j].queries[k], es[j].now, es[j].reply, es[j].blank)(ss[n].queries[k].phase)
  {
    assert Permitted(cfg, ss[n - 1], es[n - 1]) && ss[n] == After(cfg, ss[n - 1], es[n - 1]);
    EventMoves(cfg, ss[n - 1], es[n - 1], k);
    if Advances(es[n - 1], k) {
      j := n - 1;
    } else {
      j := LastStep(cfg, ss, es, n - 1, k);
    }
  }

  /** The `j`th event is a step of the query. */
  ghost predicate StepAt(ss: seq<State>, es: seq<ProxyEvent>, j: nat, k: nat)
    requires j < |es| < |ss|
  {
    Advances(es[j], k) && k in ss[j].queries
  }

  ghost predicate HotAt(ss: seq<State>, es: seq<ProxyEvent>, j: nat, k: nat, h: StoreHash, e: IndexEntry)
    requires j < |es| < |ss|
  {
    StepAt(ss, es, j, k) && ss[j].queries[k] == Query(h, ReadHot) && h in ss[j].hot && ss[j].hot[h] == e
  }

  ghost predicate ColdAt(ss: seq<State>, es: seq<ProxyEvent>, j: nat, k: nat, h: StoreHash)
    requires j < |es| < |ss|
  {
    StepAt(ss, es, j, k) && ss[j].queries[k] == Query(h, ReadHot) && h !in ss[j].hot
  }

  /** The query asked for a blob and got none. */
  ghost predicate SilentAt(ss: seq<State>, es: seq<ProxyEvent>, j: nat, k: nat, root: ArchRoot)
    requires j < |es| < |ss|
  {
    && StepAt(ss, es, j, k) && ss[j].queries[k].phase.AwaitBlob? && ss[j].queries[k].phase.root == root
    && es[j].reply == Silent
  }

  ghost predicate RemoteFailedAt(ss: seq<State>, es: seq<ProxyEvent>, j: nat, k: nat)
    requires j < |es| < |ss|
  {
    StepAt(ss, es, j, k) && ss[j].queries[k].phase.AwaitRemote? && !es[j].reply.Root?
  }

  /** The registry gave the root, or it had failed and the backup or a blank root took its place. */
  ghost predicate ObtainsAt(cfg: Config, ss: seq<State>, es: seq<ProxyEvent>, j: nat, k: nat, root: ArchRoot)
    requires j < |es| < |ss|
  {
    && StepAt(ss, es, j, k)
    && (|| (ss[j].queries[k].phase.AwaitRemote? && es[j].reply == Root(root))
        || (&& ss[j].queries[k].phase.AwaitBackup? && (exists f | 0 <= f < j :: RemoteFailedAt(ss, es, f, k))
            && root == if es[j].reply.Backup? && cfg.rootAllowed(es[j].reply.root) then es[j].reply.root else es[j].blank))
  }

  ghost predicate Obtained(cfg: Config, ss: seq<State>, es: seq<ProxyEvent>, n: nat, k: nat, root: ArchRoot)
    requires n <= |es| < |ss|
  {
    exists j | 0 <= j < n :: ObtainsAt(cfg, ss, es, j, k, root)
  }

  /** The `i`th event caches the root that its query obtained. */
  ghost predicate CachesAt(cfg: Config, ss: seq<State>, es: seq<ProxyEvent>, i: nat, root: ArchRoot)
    requires i < |es| < |ss|
  {
    && es[i].Proceeds? && es[i].query in ss[i].queries && ss[i].queries[es[i].query].phase == CacheRoot(root)
    && Obtained(cfg, ss, es, i, es[i].query, root)
  }

  /** The query takes the root it obtained itself, or one that was cached within its lifetime. */
  ghost predicate TakesAt(cfg: Config, ss: seq<State>, es: seq<ProxyEvent>, j: nat, k: nat, root: ArchRoot)
    requires j < |es| < |ss|
  {
    && StepAt(ss, es, j, k)
    && (|| (ss[j].queries[k].phase == CacheRoot(root) && Obtained(cfg, ss, es, j, k, root))
        || (&& ss[j].queries[k].phase.LoadBaseline?
            && exists i | 0 <= i < j :: CachesAt(cfg, ss, es, i, root) && es[j].now < es[i].now + cfg.ttl))
  }

  lemma BackupFollowsFailure(cfg: Config, ss: seq<State>, es: seq<ProxyEvent>, n: nat, k: nat) returns (j: nat)
    requires IsProxyRun(cfg, ss, es) && n <= |es| && k in ss[n].queries && ss[n].queries[k].phase.AwaitBackup?
    ensures j < n && RemoteFailedAt(ss, es, j, k)
  {
    j := LastStep(cfg, ss, es, n, k);
  }

  lemma CachedIsObtained(cfg: Config, ss: seq<State>, es: seq<ProxyEvent>, n: nat, k: nat)
    requires IsProxyRun(cfg, ss, es) && n <= |es| && k in ss[n].queries && ss[n].queries[k].phase.CacheRoot?
    ensures Obtained(cfg, ss, es, n, k, ss[n].queries[k].phase.root)
  {
    var j := LastStep(cfg, ss, es, n, k);
    if ss[j].queries[k].phase.AwaitBackup? {
      var f := BackupFollowsFailure(cfg, ss, es, j, k);
    }
    assert ObtainsAt(cfg, ss, es, j, k, ss[n].queries[k].phase.root);
  }

  lemma RootCaches(cfg: Config, s: State, k: nat, now: int, reply: ProxyReply, blank: ArchRoot)
    requires k in s.queries && AtRoot(s.queries[k].phase)
    ensures var b := StepRoot(cfg, s, k, now, reply, blank).baseline;
            b == s.baseline || (s.queries[k].phase.CacheRoot? && b == Some(CachedRoot(s.queries[k].phase.root, now + cfg.ttl)))
  {
  }

  lemma RouteCaches(s: State, k: nat, now: int, root: ArchRoot)
    requires k in s.queries
    ensures StepRoute(s, k, now, root).baseline == s.baseline
  {
  }

  lemma ProceedCaches(cfg: Config, s: State, k: nat, now: int, reply: ProxyReply, blank: ArchRoot)
    requires k in s.queries
    ensures var b := Proceed(cfg, s, k, now, reply, blank).baseline;
            b == s.baseline || (s.queries[k].phase.CacheRoot? && b == Some(CachedRoot(s.queries[k].phase.root, now + cfg.ttl)))
  {
    if AtRoot(s.queries[k].phase) {
      RootCaches(cfg, s, k, now, reply, blank);
    } else if s.queries[k].phase.Route? {
      RouteCaches(s, k, now, s.queries[k].phase.root);
    }
  }

  /** A cached root was obtained by the query that cached it, a lifetime before it expires. */
  lemma {:induction false} BaselineIsCached(cfg: Config, ss: seq<State>, es: seq<ProxyEvent>, n: nat) returns (i: nat)
    requires IsProxyRun(cfg, ss, es) && n <= |es| && ss[n].baseline.Some?
    ensures i < n && CachesAt(cfg, ss, es, i, ss[n].baseline.value.root) && ss[n].baseline.value.expiresAt == es[i].now + cfg.ttl
  {
    i := n - 1;
    assert Permitted(cfg, ss[i], es[i]) && ss[n] == After(cfg, ss[i], es[i]);
    if ss[n].baseline == ss[i].baseline {
      i := BaselineIsCached(cfg, ss, es, i);
    } else {
      ProceedCaches(cfg, ss[i], es[i].query, es[i].now, es[i].reply, es[i].blank);
      CachedIsObtained(cfg, ss, es, i, es[i].query);
    }
  }

  lemma {:induction false} RootsAreTaken(cfg: Config, ss: seq<State>, es: seq<ProxyEvent>, n: nat, k: nat) returns (j: nat)
    requires IsProxyRun(cfg, ss, es) && n <= |es| && k in ss[n].queries
    requires TakenRoot(ss[n].queries[k].phase).Some? && Cold(ss[n].queries[k].phase)
    ensures j < n && TakesAt(cfg, ss, es, j, k, TakenRoot(ss[n].queries[k].phase).value)
    decreases n
  {
    j := LastStep(cfg, ss, es, n, k);
    if ss[n].queries[k].phase.Route? {
      if ss[j].queries[k].phase.LoadBaseline? {
        var i := BaselineIsCached(cfg, ss, es, j);
      } else {
        CachedIsObtained(cfg, ss, es, j, k);
      }
    } else {
      j := RootsAreTaken(cfg, ss, es, j, k);
    }
  }

  lemma {:induction false} ColdWasSeen(cfg: Config, ss: seq<State>, es: seq<ProxyEvent>, n: nat, k: nat) returns (j: nat)
    requires IsProxyRun(cfg, ss, es) && n <= |es| && k in ss[n].queries && Cold(ss[n].queries[k].phase)
    ensures j < n && ColdAt(ss, es, j, k, ss[n].queries[k].hash)
    decreases n
  {
    j := LastStep(cfg, ss, es, n, k);
    if !ss[j].queries[k].phase.ReadHot? {
      j := ColdWasSeen(cfg, ss, es, j, k);
    }
  }

  lemma {:induction false} HotWasSeen(cfg: Config, ss: seq<State>, es: seq<ProxyEvent>, n: nat, k: nat) returns (j: nat)
    requires IsProxyRun(cfg, ss, es) && n <= |es| && k in ss[n].queries
    requires ss[n].queries[k].phase.Answered? && ss[n].queries[k].phase.answer.Hot?
    ensures j < n && HotAt(ss, es, j, k, ss[n].queries[k].hash, ss[n].queries[k].phase.answer.entry)
    decreases n
  {
    j := LastStep(cfg, ss, es, n, k);
    if !ss[j].queries[k].phase.ReadHot? {
      j := HotWasSeen(cfg, ss, es, j, k);
    }
  }

  lemma {:induction false} SilenceWasSeen(cfg: Config, ss: seq<State>, es: seq<ProxyEvent>, n: nat, k: nat) returns (j: nat)
    requires IsProxyRun(cfg, ss, es) && n <= |es| && k in ss[n].queries
    requires ss[n].queries[k].phase.Answered? && ss[n].queries[k].phase.answer.Unreachable?
    ensures ss[n].queries[k].phase.read.Some? && j < n && SilentAt(ss, es, j, k, ss[n].queries[k].phase.read.value)
    decreases n
  {
    j := LastStep(cfg, ss, es, n, k);
    if ss[j].queries[k].phase.Answered? {
      j := SilenceWasSeen(cfg, ss, es, j, k);
    }
  }

  /**
   Over every run, a hot answer is what the hot table held when the query read it. Any other
   answer is given only when it held nothing, and from a root that the query obtained itself or
   that was cached less than a lifetime before. A shard counts as unreachable only when the
   registry gave nothing for it.
   */
  lemma ProxyAnswersAreFresh(cfg: Config, ss: seq<State>, es: seq<ProxyEvent>, n: nat, k: nat)
    requires IsProxyRun(cfg, ss, es) && n <= |es| && k in ss[n].queries && ss[n].queries[k].phase.Answered?
    ensures var q := ss[n].queries[k];
            if q.phase.answer.Hot? then exists j | 0 <= j < n :: HotAt(ss, es, j, k, q.hash, q.phase.answer.entry)
            else
              && (exists j | 0 <= j < n :: ColdAt(ss, es, j, k, q.hash))
              && q.phase.read.Some? && (exists j | 0 <= j < n :: TakesAt(cfg, ss, es, j, k, q.phase.read.value))
              && (q.phase.answer.Unreachable? ==> exists j | 0 <= j < n :: SilentAt(ss, es, j, k, q.phase.read.value))
  {
    var q := ss[n].queries[k];
    if q.phase.answer.Hot? {
      var j := HotWasSeen(cfg, ss, es, n, k);
    } else {
      ProxyAnswersAreTruthful(cfg, ss, es, n, k);
      var c := ColdWasSeen(cfg, ss, es, n, k);
      var j := RootsAreTaken(cfg, ss, es, n, k);
      if q.phase.answer.Unreachable? {
        var u := SilenceWasSeen(cfg, ss, es, n, k);
      }
    }
  }

  /** A root that the registry gave is in the backup file when the query goes on with it. */
  lemma FetchedIsBackedUp(cfg: Config, s: State, k: nat, now: int, reply: ProxyReply, blank: ArchRoot)
    requires k in s.queries && s.queries[k].phase.AwaitRemote? && reply.Root?
    ensures var s' := StepRoot(cfg, s, k, now, reply, blank); reply.root in s'.backups && s.backups <= s'.backups
  {
  }

  // --- Progress --------------------------------------------------------------------------------

  const MAX_STEPS: nat := 7

  function Left(p: ProxyPhase): nat {
    match p
    case ReadHot => MAX_STEPS
    case LoadBaseline => 6
    case AwaitRemote => 5
    case AwaitBackup => 4
    case CacheRoot(_) => 3
    case Route(_) => 2
    case AwaitBlob(_, _) => 1
    case Answered(_, _) => 0
  }

  predicate Nearer(p: ProxyPhase, p': ProxyPhase) {
    Left(p') < Left(p) || p'.Answered?
  }

  lemma RootAdvances(cfg: Config, s: State, k: nat, now: int, reply: ProxyReply, blank: ArchRoot)
    requires k in s.queries && AtRoot(s.queries[k].phase)
    ensures Nearer(s.queries[k].phase, StepRoot(cfg, s, k, now, reply, blank).queries[k].phase)
  {
  }

  lemma RouteAdvances(s: State, k: nat, now: int, root: ArchRoot)
    requires k in s.queries
    ensures Nearer(Route(root), StepRoute(s, k, now, root).queries[k].phase)
  {
  }

  lemma ProceedAdvances(cfg: Config, s: State, k: nat, now: int, reply: ProxyReply, blank: ArchRoot)
    requires k in s.queries
    ensures k in Proceed(cfg, s, k, now, reply, blank).queries
    ensures Nearer(s.queries[k].phase, Proceed(cfg, s, k, now, reply, blank).queries[k].phase)
  {
    ProceedMoves(cfg, s, k, now, reply, blank);
    if AtRoot(s.queries[k].phase) {
      RootAdvances(cfg, s, k, now, reply, blank);
    } else if s.queries[k].phase.Route? {
      RouteAdvances(s, k, now, s.queries[k].phase.root);
    }
  }

  function LeftOf(s: State, k: nat): nat {
    if k in s.queries then Left(s.queries[k].phase) else MAX_STEPS + 1
  }

  lemma EventAdvances(cfg: Config, s: State, e: ProxyEvent, k: nat)
    requires Permitted(cfg, s, e) && e != Restart && LeftOf(s, k) <= MAX_STEPS
    ensures Falls(LeftOf(s, k), Advances(e, k), LeftOf(After(cfg, s, e), k))
  {
    if e.Proceeds? {
      ProceedMoves(cfg, s, e.query, e.now, e.reply, e.blank);
      ProceedAdvances(cfg, s, e.query, e.now, e.reply, e.blank);
    }
  }

  predicate Falls(was: nat, step: bool, left: nat) {
    if step then left < was || left == 0 else left == was
  }

  function StepsOf(es: seq<ProxyEvent>, k: nat): nat {
    if es == [] then 0 else StepsOf(es[..|es| - 1], k) + (if Advances(es[|es| - 1], k) then 1 else 0)
  }

  lemma StepsNext(es: seq<ProxyEvent>, i: nat, n: nat, k: nat)
    requires i < n <= |es|
    ensures StepsOf(es[i..n], k) == StepsOf(es[i..n - 1], k) + (if Advances(es[n - 1], k) then 1 else 0)
  {
    assert es[i..n][..|es[i..n]| - 1] == es[i..n - 1];
  }

  ghost function AllLeft(ss: seq<State>, k: nat): (r: seq<nat>)
    ensures |r| == |ss|
  {
    if ss == [] then [] else AllLeft(ss[..|ss| - 1], k) + [LeftOf(ss[|ss| - 1], k)]
  }

  lemma {:induction false} AllLeftAt(ss: seq<State>, k: nat, j: nat)
    requires j < |ss|
    ensures AllLeft(ss, k)[j] == LeftOf(ss[j], k)
  {
    if j < |ss| - 1 { AllLeftAt(ss[..|ss| - 1], k, j); }
  }

  lemma LeftFalls(cfg: Config, ss: seq<State>, es: seq<ProxyEvent>, left: seq<nat>, j: nat, k: nat)
    requires IsProxyRun(cfg, ss, es) && j < |es| && es[j] != Restart && left == AllLeft(ss, k) && left[j] <= MAX_STEPS
    ensures Falls(left[j], Advances(es[j], k), left[j + 1])
  {
    AllLeftAt(ss, k, j);
    AllLeftAt(ss, k, j + 1);
    assert Permitted(cfg, ss[j], es[j]) && ss[j + 1] == After(cfg, ss[j], es[j]);
    EventAdvances(cfg, ss[j], es[j], k);
  }

  lemma {:induction false} StepsRunOut(cfg: Config, ss: seq<State>, es: seq<ProxyEvent>, left: seq<nat>, i: nat, n: nat, k: nat)
    requires IsProxyRun(cfg, ss, es) && i <= n <= |es| && (forall j | i <= j < n :: es[j] != Restart)
    requires left == AllLeft(ss, k) && left[i] <= MAX_STEPS
    ensures left[n] == 0 || left[n] + StepsOf(es[i..n], k) <= left[i]
    decreases n
  {
    if i < n {
      StepsRunOut(cfg, ss, es, left, i, n - 1, k);
      LeftFalls(cfg, ss, es, left, n - 1, k);
      StepsNext(es, i, n, k);
    }
  }

  lemma NoneLeftIsAnswered(ss: seq<State>, n: nat, k: nat)
    requires n < |ss|
    ensures AllLeft(ss, k)[n] == 0 <==> k in ss[n].queries && ss[n].queries[k].phase.Answered?
    ensures k in ss[n].queries ==> AllLeft(ss, k)[n] <= MAX_STEPS
  {
    AllLeftAt(ss, k, n);
  }

  /** Whatever fails, a query is answered after at most seven steps, unless the process restarts. */
  lemma QueriesEnd(cfg: Config, ss: seq<State>, es: seq<ProxyEvent>, i: nat, n: nat, k: nat)
    requires IsProxyRun(cfg, ss, es) && i <= n <= |es| && k in ss[i].queries
    requires (forall j | i <= j < n :: es[j] != Restart) && StepsOf(es[i..n], k) >= MAX_STEPS
    ensures k in ss[n].queries && ss[n].queries[k].phase.Answered?
  {
    NoneLeftIsAnswered(ss, i, k);
    StepsRunOut(cfg, ss, es, AllLeft(ss, k), i, n, k);
    NoneLeftIsAnswered(ss, n, k);
  }
}
