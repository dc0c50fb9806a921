/** How often the worker may look for a newer root after a miss. */
module Debounce {
  import opened Root
  import opened Store
  import opened Index
  import opened Worker

  /** The time of an isolate's last revalidation. */
  function LastOf(w: World, isolate: nat): int {
    MemoryOf(w, isolate).lastRevalidate
  }

  /** The event starts a revalidation of the isolate. */
  ghost predicate Revalidates(env: Env, w: World, e: Event, isolate: nat)
    requires Allowed(env, w, e)
  {
    && e.Resume? && w.tasks[e.task].isolate == isolate && w.tasks[e.task].phase.Missed?
    && Next(env, w, e).tasks[e.task].phase.AwaitHead?
  }

  lemma BaselineKeepsLast(env: Env, w: World, k: nat, now: int, reply: Reply, isolate: nat)
    requires k in w.tasks && AtBaseline(w.tasks[k].phase)
    ensures LastOf(StepBaseline(env, w, k, now, reply), isolate) == LastOf(w, isolate)
  {
  }

  lemma RefreshKeepsLast(env: Env, w: World, k: nat, reply: Reply, isolate: nat)
    requires k in w.tasks && AtRefresh(w.tasks[k].phase)
    ensures LastOf(StepRefresh(env, w, k, reply), isolate) == LastOf(w, isolate)
  {
  }

  lemma UpsertKeepsLast(
    w: World, i: nat, d: ShardDescriptor, p: ShardPayload, names: map<string, string>, at: int, isolate: nat)
    ensures LastOf(Upsert(w, i, d, p, names, at), isolate) == LastOf(w, isolate)
  {
  }

  lemma ShardKeepsLast(env: Env, w: World, k: nat, reply: Reply, isolate: nat)
    requires k in w.tasks && AtShard(w.tasks[k].phase)
    ensures LastOf(StepShard(env, w, k, reply), isolate) == LastOf(w, isolate)
  {
    match w.tasks[k].phase
    case AwaitKvShard(_, _, d, at) =>
      if reply.KvShard? { UpsertKeepsLast(w, w.tasks[k].isolate, d, reply.payload, reply.names, at, isolate); }
    case StoringShard(_, _, d, at, p, names) => UpsertKeepsLast(w, w.tasks[k].isolate, d, p, names, at, isolate);
    case _ =>
  }

  lemma TaskKeepsLast(env: Env, w: World, k: nat, now: int, reply: Reply, isolate: nat)
    requires k in w.tasks && !w.tasks[k].phase.Missed?
    ensures LastOf(StepTask(env, w, k, now, reply), isolate) == LastOf(w, isolate)
  {
    var p := w.tasks[k].phase;
    if AtBaseline(p) {
      BaselineKeepsLast(env, w, k, now, reply, isolate);
    } else if AtRefresh(p) {
      RefreshKeepsLast(env, w, k, reply, isolate);
    } else if AtShard(p) {
      ShardKeepsLast(env, w, k, reply, isolate);
    }
  }

  lemma MissKeepsLast(w: World, k: nat, now: int, root: ArchRoot, healed: bool, isolate: nat)
    requires k in w.tasks
    ensures var w' := StepMiss(w, k, now, root, healed);
            if w'.tasks[k].phase.AwaitHead? && w.tasks[k].isolate == isolate
            then now - LastOf(w, isolate) >= REVALIDATE_DEBOUNCE && LastOf(w', isolate) == now
            else LastOf(w', isolate) == LastOf(w, isolate)
  {
  }

  /** Only a revalidation moves the time, to now, and only after the debounce interval. */
  lemma EventLast(env: Env, w: World, e: Event, isolate: nat)
    requires Allowed(env, w, e)
    ensures if Revalidates(env, w, e, isolate)
            then e.now - LastOf(w, isolate) >= REVALIDATE_DEBOUNCE && LastOf(Next(env, w, e), isolate) == e.now
            else LastOf(Next(env, w, e), isolate) == LastOf(w, isolate)
  {
    match e
    case Resume(k, now, reply) =>
      var t := w.tasks[k];
      if t.phase.Missed? {
        MissKeepsLast(w, k, now, t.phase.root, t.phase.healed, isolate);
      } else {
        TaskKeepsLast(env, w, k, now, reply, isolate);
      }
    case _ =>
  }

  lemma EventGrows(env: Env, w: World, e: Event, isolate: nat)
    requires Allowed(env, w, e)
    ensures LastOf(w, isolate) <= LastOf(Next(env, w, e), isolate)
  {
    EventLast(env, w, e, isolate);
  }

  lemma StepGrows(env: Env, ws: seq<World>, es: seq<Event>, n: nat, isolate: nat)
    requires IsRun(env, ws, es) && n < |es|
    ensures LastOf(ws[n], isolate) <= LastOf(ws[n + 1], isolate)
  {
    EventGrows(env, ws[n], es[n], isolate);
  }

  lemma {:induction false} Ascends(a: seq<int>, i: nat, j: nat)
    requires (forall n | 0 <= n < |a| - 1 :: a[n] <= a[n + 1]) && i <= j < |a|
    ensures a[i] <= a[j]
    decreases j
  {
    if i < j { Ascends(a, i, j - 1); }
  }

  lemma LastGrows(env: Env, ws: seq<World>, es: seq<Event>, i: nat, j: nat, isolate: nat)
    requires IsRun(env, ws, es) && i <= j < |ws|
    ensures LastOf(ws[i], isolate) <= LastOf(ws[j], isolate)
  {
    var a := seq(|ws|, n requires 0 <= n < |ws| => LastOf(ws[n], isolate));
    forall n | 0 <= n < |a| - 1 ensures a[n] <= a[n + 1] {
      StepGrows(env, ws, es, n, isolate);
    }
    Ascends(a, i, j);
  }

  /** Over every run, two revalidations of one isolate are at least the debounce interval apart. */
  lemma RevalidationsAreSpaced(env: Env, ws: seq<World>, es: seq<Event>, i: nat, j: nat, isolate: nat)
    requires IsRun(env, ws, es) && i < j < |es|
    requires Revalidates(env, ws[i], es[i], isolate) && Revalidates(env, ws[j], es[j], isolate)
    ensures es[j].now - es[i].now >= REVALIDATE_DEBOUNCE
  {
    EventLast(env, ws[i], es[i], isolate);
    LastGrows(env, ws, es, i + 1, j, isolate);
    EventLast(env, ws[j], es[j], isolate);
  }
}
