/** What holds of every answer of the selection engine. */
module SelectionLaws {
  import opened Basics
  import opened Text
  import opened Order
  import opened Types
  import opened Reachability
  import opened Selection
  import Glob

  /** The picked entries are those inside the least set closed under the mode's steps. */
  lemma PickedIsLeastFixedPoint(
    x: Platform, entries: Entries, roots: Roots, sel: CacheSelector, matched: Entries, unmatched: Entries,
    s: set<StoreHash>)
    requires Readable(entries) && Picked(x, entries, roots, sel, matched, unmatched)
    requires var prot := Protected(RefGraph(entries), roots, sel);
             Least(RefGraph(entries), sel.mode, prot, Initial(x, entries, sel, prot), s)
    ensures matched == Restrict(entries, s) && unmatched == entries - s
  {
    var g := RefGraph(entries);
    var prot := Protected(g, roots, sel);
    ReachIsLeast(g, sel.mode, prot, Initial(x, entries, sel, prot), s);
  }

  /** No iteration order shows in an answer, except in which parent explains a cascade. */
  lemma AnswerIsUnique(
    x: Platform, entries: Entries, roots: Roots, sel: CacheSelector, r: CacheQueryResult, q: CacheQueryResult)
    requires Readable(entries) && QueryAnswer(x, entries, roots, sel, r) && QueryAnswer(x, entries, roots, sel, q)
    ensures r == q.(reasons := r.reasons) && r.reasons.Keys == q.reasons.Keys
  {
  }

  lemma SplitOne(entries: Entries, s: set<StoreHash>, h: StoreHash)
    requires h in entries
    ensures var rest := entries - {h};
            if h in s then h in Restrict(entries, s) && Restrict(entries, s) - {h} == Restrict(rest, s) && entries - s == rest - s
            else h in entries - s && (entries - s) - {h} == rest - s && Restrict(entries, s) == Restrict(rest, s)
    ensures h in s ==> Restrict(entries, s)[h] == entries[h]
    ensures h !in s ==> (entries - s)[h] == entries[h]
  {
  }

  lemma {:induction false} BytesSplit(entries: Entries, s: set<StoreHash>)
    ensures Bytes(Restrict(entries, s)) + Bytes(entries - s) == Bytes(entries)
    decreases |entries|
  {
    if entries != map[] {
      var h :| h in entries;
      BytesSplit(entries - {h}, s);
      BytesOfOne(entries, h);
      SplitOne(entries, s, h);
      if h in s {
        BytesOfOne(Restrict(entries, s), h);
      } else {
        BytesOfOne(entries - s, h);
      }
    } else {
      assert Restrict(entries, s) == map[] && entries - s == map[];
    }
  }

  lemma WrappedPair(a: nat, b: nat)
    ensures Wrap(Wrap(a) + Wrap(b)) == Wrap(a + b)
  {
    WrapSum(a, Wrap(b));
    WrapSum(b, a);
  }

  lemma EntriesSplit(entries: Entries, s: set<StoreHash>)
    ensures Restrict(entries, s).Keys !! (entries - s).Keys && Restrict(entries, s) + (entries - s) == entries
  {
  }

  lemma SplitCovers(entries: Entries, s: set<StoreHash>, matched: Entries, unmatched: Entries)
    requires matched == Restrict(entries, s) && unmatched == entries - s
    ensures matched.Keys !! unmatched.Keys && matched + unmatched == entries
    ensures Bytes(matched) + Bytes(unmatched) == Bytes(entries)
  {
    EntriesSplit(entries, s);
    BytesSplit(entries, s);
  }

  lemma AnswerCovers(entries: Entries, s: set<StoreHash>, r: CacheQueryResult)
    requires r.matched == Restrict(entries, s) && r.unmatched == entries - s
    requires r.matchedBytes == Wrap(Bytes(r.matched)) && r.unmatchedBytes == Wrap(Bytes(r.unmatched))
    ensures r.matched.Keys !! r.unmatched.Keys && r.matched + r.unmatched == entries
    ensures Wrap(r.matchedBytes + r.unmatchedBytes) == Wrap(Bytes(entries))
    ensures Bytes(entries) < U64_LIMIT ==> r.matchedBytes + r.unmatchedBytes == Bytes(entries)
  {
    SplitCovers(entries, s, r.matched, r.unmatched);
    WrappedSum(Bytes(r.matched), Bytes(r.unmatched));
  }

  lemma WrappedSum(a: nat, b: nat)
    ensures Wrap(Wrap(a) + Wrap(b)) == Wrap(a + b) && (a + b < U64_LIMIT ==> Wrap(a) + Wrap(b) == a + b)
  {
    WrappedPair(a, b);
  }

  /** Picked and kept entries and bytes make up the input, with nothing in both. */
  lemma AnswerPartitions(x: Platform, entries: Entries, roots: Roots, sel: CacheSelector, r: CacheQueryResult)
    requires Readable(entries) && QueryAnswer(x, entries, roots, sel, r)
    ensures r.matched.Keys !! r.unmatched.Keys && r.matched + r.unmatched == entries
    ensures Wrap(r.matchedBytes + r.unmatchedBytes) == Wrap(Bytes(entries))
    ensures Bytes(entries) < U64_LIMIT ==> r.matchedBytes + r.unmatchedBytes == Bytes(entries)
  {
    AnswerCovers(entries, Total(x, entries, roots, sel), r);
  }

  /** Nothing the GC roots protect is picked, in any mode. */
  lemma ProtectedIsKept(x: Platform, entries: Entries, roots: Roots, sel: CacheSelector)
    requires Readable(entries)
    ensures Total(x, entries, roots, sel) !! Protected(RefGraph(entries), roots, sel)
  {
    var g := RefGraph(entries);
    var prot := Protected(g, roots, sel);
    ReachAvoids(g, sel.mode, prot, Initial(x, entries, sel, prot));
  }

  /** A closure over dependents that avoids a forward-closed set takes in every referrer. */
  lemma ReferrersAreTaken(
    g: Graph, mode: CascadeMode, prot: set<StoreHash>, initial: set<StoreHash>, a: StoreHash, b: StoreHash)
    requires mode == Dependents || mode == FullTree
    requires Closed(g, Transitive, {}, prot) && initial !! prot
    requires b in Reach(g, mode, prot, initial) && Refers(g, a, b)
    ensures a in Reach(g, mode, prot, initial)
  {
    ReachAvoids(g, mode, prot, initial);
    ReachIsClosed(g, mode, prot, initial);
    assert a in prot ==> Edge(g, Transitive, {}, a, b);
    assert a !in prot ==> Edge(g, mode, prot, b, a);
  }

  lemma ProtectedIsClosed(g: Graph, roots: Roots, sel: CacheSelector)
    ensures Closed(g, Transitive, {}, Protected(g, roots, sel))
  {
    ReachIsClosed(g, Transitive, {}, RootSet(ActiveRoots(roots, sel.scope)));
  }

  /** Where the selection spreads to dependents, no kept entry references a picked one. */
  lemma NoDanglingReference(
    x: Platform, entries: Entries, roots: Roots, sel: CacheSelector, matched: Entries, unmatched: Entries,
    kept: StoreHash, gone: StoreHash)
    requires Readable(entries) && Picked(x, entries, roots, sel, matched, unmatched)
    requires sel.mode == Dependents || sel.mode == FullTree
    requires kept in unmatched && gone in matched
    ensures gone !in Refs(entries[kept]).value
  {
    var g := RefGraph(entries);
    var prot := Protected(g, roots, sel);
    assert kept in entries && kept !in Total(x, entries, roots, sel) && gone in Total(x, entries, roots, sel);
    if gone in Refs(entries[kept]).value {
      ProtectedIsClosed(g, roots, sel);
      ReferrersAreTaken(g, sel.mode, prot, Initial(x, entries, sel, prot), kept, gone);
    }
  }

  /** `chain` follows the recorded parents. */
  ghost predicate FollowsReasons(reasons: Reasons, chain: seq<StoreHash>) {
    && chain != [] && (forall i | 0 <= i < |chain| :: chain[i] in reasons)
    && forall i | 0 < i < |chain| :: Parent(reasons[chain[i - 1]]) == Some(chain[i])
  }

  lemma {:induction false} ChainOf(
    g: Graph, mode: CascadeMode, avoid: set<StoreHash>, initial: set<StoreHash>, reasons: Reasons,
    rank: map<StoreHash, nat>, h: StoreHash)
    returns (chain: seq<StoreHash>)
    requires Ranked(g, mode, avoid, initial, reasons, rank) && h in reasons
    ensures FollowsReasons(reasons, chain) && chain[0] == h && chain[|chain| - 1] in initial
    decreases rank[h]
  {
    if h in initial {
      chain := [h];
    } else {
      var up := ChainOf(g, mode, avoid, initial, reasons, rank, Parent(reasons[h]).value);
      chain := [h] + up;
      assert forall i | 0 < i < |chain| :: chain[i] == up[i - 1];
    }
  }

  lemma ChainOfExplained(
    g: Graph, mode: CascadeMode, avoid: set<StoreHash>, initial: set<StoreHash>, reasons: Reasons, h: StoreHash)
    returns (chain: seq<StoreHash>)
    requires Explained(g, mode, avoid, initial, reasons) && h in reasons
    ensures FollowsReasons(reasons, chain) && Distinct(chain) && chain[0] == h && chain[|chain| - 1] in initial
    ensures forall i | 0 <= i < |chain| :: Adjacent(g, mode, avoid, chain[i], reasons[chain[i]])
  {
    var rank :| Ranked(g, mode, avoid, initial, reasons, rank);
    chain := ChainOf(g, mode, avoid, initial, reasons, rank, h);
    forall i, j | 0 <= i < j < |chain| ensures chain[i] != chain[j] {
      RanksFall(reasons, rank, chain, i, j, g, mode, avoid, initial);
    }
  }

  /** Following the reasons from any picked hash ends, without a cycle, at an initial match. */
  lemma ReasonsLeadToInitialMatch(
    x: Platform, entries: Entries, roots: Roots, sel: CacheSelector, reasons: Reasons, h: StoreHash)
    returns (chain: seq<StoreHash>)
    requires Readable(entries) && ReasonsHold(x, entries, roots, sel, reasons)
    requires h in Total(x, entries, roots, sel)
    ensures FollowsReasons(reasons, chain) && Distinct(chain) && chain[0] == h
    ensures chain[|chain| - 1] in Initial(x, entries, sel, Protected(RefGraph(entries), roots, sel))
    ensures forall i | 0 <= i < |chain| ::
              Adjacent(RefGraph(entries), sel.mode, Protected(RefGraph(entries), roots, sel), chain[i], reasons[chain[i]])
  {
    var g := RefGraph(entries);
    var prot := Protected(g, roots, sel);
    chain := ChainOfExplained(g, sel.mode, prot, Initial(x, entries, sel, prot), reasons, h);
  }

  lemma {:induction false} RanksFall(
    reasons: Reasons, rank: map<StoreHash, nat>, chain: seq<StoreHash>, i: nat, j: nat,
    g: Graph, mode: CascadeMode, avoid: set<StoreHash>, initial: set<StoreHash>)
    requires Ranked(g, mode, avoid, initial, reasons, rank) && FollowsReasons(reasons, chain)
    requires i < j < |chain|
    ensures rank[chain[j]] < rank[chain[i]]
    decreases j
  {
    assert Parent(reasons[chain[j - 1]]) == Some(chain[j]);
    if i < j - 1 {
      RanksFall(reasons, rank, chain, i, j - 1, g, mode, avoid, initial);
    }
  }

  // --- Selections in terms of the entries alone ------------------------------------------------

  /** The scope speaks about the system; a scope that names no system speaks about all of them. */
  predicate Targets(scope: Scope, s: SystemArch) {
    match scope
    case All(systems) => systems == {} || s in systems
    case Filtered(f) => f.systems == {} || s in f.systems
    case Nothing => true
  }

  /** References lead from a GC root of a targeted system to the hash. */
  ghost predicate Guarded(entries: Entries, roots: Roots, scope: Scope, h: StoreHash)
    requires Readable(entries)
  {
    exists s, p :: LeadsTo(entries, roots, scope, s, p, h)
  }

  ghost predicate LeadsTo(
    entries: Entries, roots: Roots, scope: Scope, s: SystemArch, p: seq<StoreHash>, h: StoreHash)
    requires Readable(entries)
  {
    && s in roots && Targets(scope, s) && p != [] && p[0] in roots[s] && p[|p| - 1] == h
    && forall i | 0 < i < |p| :: Cites(entries, p[i - 1], p[i])
  }

  ghost predicate Cites(entries: Entries, a: StoreHash, b: StoreHash)
    requires Readable(entries)
  {
    a in entries && b in Refs(entries[a]).value
  }

  /** The time filter, if any, names the instant. */
  predicate InTime(t: Option<TimeFilter>, at: int) {
    || (t.Some? && t.value.Before? && at < t.value.instant)
    || (t.Some? && t.value.After? && t.value.instant < at)
    || (t.Some? && t.value.Between? && t.value.start <= at && at <= t.value.end)
  }

  predicate InSize(s: Option<SizeFilter>, size: nat) {
    || (s.Some? && s.value.MinBytes? && s.value.min <= size)
    || (s.Some? && s.value.MaxBytes? && size <= s.value.max)
    || (s.Some? && s.value.Range? && s.value.lo <= size && size <= s.value.hi)
  }

  /** Some pattern names the entry, its store path or its NAR. */
  ghost predicate InPatterns(patterns: seq<string>, e: IndexEntry) {
    exists i, t | 0 <= i < |patterns| && t in {e.name, e.meta.storePath, e.meta.narBasename} ::
      Glob.MatchesPattern(Utf8(patterns[i]), Utf8(t))
  }

  predicate FromJob(o: Option<Origin>, jobs: set<string>) {
    exists j | j in jobs :: o.Some? && o.value.jobId == Some(j)
  }

  predicate FromRun(o: Option<Origin>, runs: set<nat>) {
    exists r | r in runs :: o.Some? && o.value.runId == Some(r)
  }

  /** What a label says about the entry. */
  ghost predicate LabelHolds(x: Platform, f: FilterPredicates, h: StoreHash, e: IndexEntry, l: MatchLabel) {
    match l
    case SystemMatch => f == FilterPredicates({}, [], f.systems, None, None, {}, {})
    case HashMatch => h in f.storeHashes
    case PatternMatch => InPatterns(f.patterns, e)
    case TimeMatch => x.instant(e.added).Some? && InTime(f.time, x.instant(e.added).value)
    case SizeMatch => InSize(f.size, e.narSize)
    case JobMatch => FromJob(e.origin, f.jobs)
    case RunMatch => FromRun(e.origin, f.runs)
  }

  ghost predicate OfSystem(systems: set<SystemArch>, e: IndexEntry) {
    systems == {} || exists s | s in systems :: e.system == Some(s)
  }

  /** The scope wants the entry: it is of a named system, and some filter names it if there are any. */
  ghost predicate Wanted(x: Platform, scope: Scope, h: StoreHash, e: IndexEntry) {
    match scope
    case All(systems) => OfSystem(systems, e)
    case Filtered(f) => OfSystem(f.systems, e) && exists l :: LabelHolds(x, f, h, e, l)
    case Nothing => false
  }

  lemma PatternsAgree(patterns: seq<string>, e: IndexEntry)
    ensures PatternHits(patterns, e) <==> InPatterns(patterns, e)
  {
    if PatternHits(patterns, e) {
      var p :| p in patterns && (NameMatches(p, e.name) || NameMatches(p, e.meta.storePath) || NameMatches(p, e.meta.narBasename));
      var i :| 0 <= i < |patterns| && patterns[i] == p;
      if NameMatches(p, e.name) {
        assert Glob.MatchesPattern(Utf8(patterns[i]), Utf8(e.name));
      } else if NameMatches(p, e.meta.storePath) {
        assert Glob.MatchesPattern(Utf8(patterns[i]), Utf8(e.meta.storePath));
      } else {
        assert Glob.MatchesPattern(Utf8(patterns[i]), Utf8(e.meta.narBasename));
      }
    }
    if InPatterns(patterns, e) {
      var i, t :| && 0 <= i < |patterns| && t in {e.name, e.meta.storePath, e.meta.narBasename}
                  && Glob.MatchesPattern(Utf8(patterns[i]), Utf8(t));
      assert patterns[i] in patterns && NameMatches(patterns[i], t);
    }
  }

  function LabelsOf(hash: bool, pattern: bool, time: bool, size: bool, job: bool, run: bool): seq<MatchLabel> {
    When(hash, HashMatch) + When(pattern, PatternMatch) + When(time, TimeMatch) + When(size, SizeMatch) +
    When(job, JobMatch) + When(run, RunMatch)
  }

  lemma LabelsOfHave(hash: bool, pattern: bool, time: bool, size: bool, job: bool, run: bool)
    ensures var s := LabelsOf(hash, pattern, time, size, job, run);
            && (HashMatch in s <==> hash) && (PatternMatch in s <==> pattern) && (TimeMatch in s <==> time)
            && (SizeMatch in s <==> size) && (JobMatch in s <==> job) && (RunMatch in s <==> run) && SystemMatch !in s
  {
  }

  /** The labels of the filters that name the entry, in order. */
  ghost function ItemLabels(x: Platform, f: FilterPredicates, h: StoreHash, e: IndexEntry): seq<MatchLabel> {
    LabelsOf(LabelHolds(x, f, h, e, HashMatch), LabelHolds(x, f, h, e, PatternMatch), LabelHolds(x, f, h, e, TimeMatch),
             LabelHolds(x, f, h, e, SizeMatch), LabelHolds(x, f, h, e, JobMatch), LabelHolds(x, f, h, e, RunMatch))
  }

  lemma ItemLabelsAre(x: Platform, f: FilterPredicates, h: StoreHash, e: IndexEntry, l: MatchLabel)
    ensures l in ItemLabels(x, f, h, e) <==> l != SystemMatch && LabelHolds(x, f, h, e, l)
  {
    LabelsOfHave(
      LabelHolds(x, f, h, e, HashMatch), LabelHolds(x, f, h, e, PatternMatch), LabelHolds(x, f, h, e, TimeMatch),
      LabelHolds(x, f, h, e, SizeMatch), LabelHolds(x, f, h, e, JobMatch), LabelHolds(x, f, h, e, RunMatch));
  }

  lemma EvaluatesToLabels(x: Platform, f: FilterPredicates, h: StoreHash, e: IndexEntry)
    ensures EvaluateEntry(x, f, h, e) ==
            if !OfSystem(f.systems, e) then None
            else if LabelHolds(x, f, h, e, SystemMatch) then Some([SystemMatch])
            else if ItemLabels(x, f, h, e) == [] then None else Some(ItemLabels(x, f, h, e))
  {
    PatternsAgree(f.patterns, e);
  }

  /** Without filters nothing but the system names an entry. */
  lemma SystemAlone(x: Platform, f: FilterPredicates, h: StoreHash, e: IndexEntry, l: MatchLabel)
    requires LabelHolds(x, f, h, e, SystemMatch) && l != SystemMatch
    ensures !LabelHolds(x, f, h, e, l)
  {
  }

  /** The labels an entry is picked with are those that hold of it, and without any it is not picked. */
  lemma LabelsAreExact(x: Platform, f: FilterPredicates, h: StoreHash, e: IndexEntry)
    ensures var r := EvaluateEntry(x, f, h, e);
            && (r.Some? <==> OfSystem(f.systems, e) && exists l :: LabelHolds(x, f, h, e, l))
            && (r.Some? ==> forall l :: l in r.value <==> LabelHolds(x, f, h, e, l))
  {
    EvaluatesToLabels(x, f, h, e);
    forall l ensures l in ItemLabels(x, f, h, e) <==> l != SystemMatch && LabelHolds(x, f, h, e, l) {
      ItemLabelsAre(x, f, h, e, l);
    }
    if LabelHolds(x, f, h, e, SystemMatch) {
      forall l | l != SystemMatch ensures !LabelHolds(x, f, h, e, l) {
        SystemAlone(x, f, h, e, l);
      }
    } else if ItemLabels(x, f, h, e) != [] {
      assert ItemLabels(x, f, h, e)[0] in ItemLabels(x, f, h, e);
    }
  }

  lemma WantedIs(x: Platform, sel: CacheSelector, h: StoreHash, e: IndexEntry)
    ensures InitialReason(x, sel, h, e).Some? <==> Wanted(x, sel.scope, h, e)
  {
    if sel.scope.Filtered? { LabelsAreExact(x, sel.scope.predicates, h, e); }
  }

  lemma ProtectedLeads(entries: Entries, roots: Roots, sel: CacheSelector, h: StoreHash)
    requires Readable(entries) && h in Protected(RefGraph(entries), roots, sel)
    ensures Guarded(entries, roots, sel.scope, h)
  {
    var g, start := RefGraph(entries), RootSet(ActiveRoots(roots, sel.scope));
    var p :| Connects(g, Transitive, {}, start, p, h);
    var s :| s in ActiveRoots(roots, sel.scope) && p[0] in roots[s];
    forall i | 0 < i < |p| ensures Cites(entries, p[i - 1], p[i]) {
      assert Edge(g, Transitive, {}, p[i - 1], p[i]);
    }
    assert LeadsTo(entries, roots, sel.scope, s, p, h);
  }

  lemma LedIsProtected(
    entries: Entries, roots: Roots, sel: CacheSelector, s: SystemArch, p: seq<StoreHash>, h: StoreHash)
    requires Readable(entries) && LeadsTo(entries, roots, sel.scope, s, p, h) && sel.protectGcRoots
    ensures h in Protected(RefGraph(entries), roots, sel)
  {
    var g, start := RefGraph(entries), RootSet(ActiveRoots(roots, sel.scope));
    forall i | 0 < i < |p| ensures Edge(g, Transitive, {}, p[i - 1], p[i]) {
      assert Cites(entries, p[i - 1], p[i]);
    }
    ReachIsClosed(g, Transitive, {}, start);
    assert s in ActiveRoots(roots, sel.scope) && p[0] in start;
    PathStaysInside(g, Transitive, {}, Reach(g, Transitive, {}, start), p);
  }

  /** Exactly what references lead to from the GC roots of the targeted systems is protected. */
  lemma ProtectedIsGuarded(entries: Entries, roots: Roots, sel: CacheSelector, h: StoreHash)
    requires Readable(entries)
    ensures h in Protected(RefGraph(entries), roots, sel) <==> sel.protectGcRoots && Guarded(entries, roots, sel.scope, h)
  {
    if h in Protected(RefGraph(entries), roots, sel) {
      ProtectedLeads(entries, roots, sel, h);
    }
    if sel.protectGcRoots && Guarded(entries, roots, sel.scope, h) {
      var s, p :| LeadsTo(entries, roots, sel.scope, s, p, h);
      LedIsProtected(entries, roots, sel, s, p, h);
    }
  }

  /** One step of a cascade, from an entry to what references it, to what it references, or both ways. */
  ghost predicate Cascade(entries: Entries, mode: CascadeMode, a: StoreHash, b: StoreHash)
    requires Readable(entries)
  {
    || ((mode == Dependents || mode == FullTree) && Cites(entries, b, a))
    || ((mode == Transitive || mode == FullTree) && Cites(entries, a, b))
  }

  /** Steps lead from a wanted entry to the hash, over nothing that is protected. */
  ghost predicate Cascades(
    x: Platform, entries: Entries, roots: Roots, sel: CacheSelector, p: seq<StoreHash>, h: StoreHash)
    requires Readable(entries)
  {
    && p != [] && p[0] in entries && Wanted(x, sel.scope, p[0], entries[p[0]]) && p[|p| - 1] == h
    && (forall i | 0 <= i < |p| :: !(sel.protectGcRoots && Guarded(entries, roots, sel.scope, p[i])))
    && forall i | 0 < i < |p| :: Cascade(entries, sel.mode, p[i - 1], p[i])
  }

  lemma EdgeIsCascade(entries: Entries, mode: CascadeMode, avoid: set<StoreHash>, a: StoreHash, b: StoreHash)
    requires Readable(entries)
    ensures Edge(RefGraph(entries), mode, avoid, a, b) <==> b !in avoid && Cascade(entries, mode, a, b)
  {
  }

  lemma InitialIsWanted(x: Platform, entries: Entries, roots: Roots, sel: CacheSelector, h: StoreHash)
    requires Readable(entries)
    ensures h in Initial(x, entries, sel, Protected(RefGraph(entries), roots, sel)) <==>
            && h in entries && Wanted(x, sel.scope, h, entries[h])
            && !(sel.protectGcRoots && Guarded(entries, roots, sel.scope, h))
  {
    ProtectedIsGuarded(entries, roots, sel, h);
    if h in entries { WantedIs(x, sel, h, entries[h]); }
  }

  lemma CascadeIsTotal(
    x: Platform, entries: Entries, roots: Roots, sel: CacheSelector, p: seq<StoreHash>, h: StoreHash)
    requires Readable(entries) && Cascades(x, entries, roots, sel, p, h)
    ensures h in Total(x, entries, roots, sel)
  {
    var g := RefGraph(entries);
    var prot := Protected(g, roots, sel);
    var initial := Initial(x, entries, sel, prot);
    InitialIsWanted(x, entries, roots, sel, p[0]);
    forall i | 0 < i < |p| ensures Edge(g, sel.mode, prot, p[i - 1], p[i]) {
      assert Cascade(entries, sel.mode, p[i - 1], p[i]);
      ProtectedIsGuarded(entries, roots, sel, p[i]);
      EdgeIsCascade(entries, sel.mode, prot, p[i - 1], p[i]);
    }
    ReachIsClosed(g, sel.mode, prot, initial);
    PathStaysInside(g, sel.mode, prot, Reach(g, sel.mode, prot, initial), p);
  }

  lemma TotalIsCascade(x: Platform, entries: Entries, roots: Roots, sel: CacheSelector, h: StoreHash)
    returns (p: seq<StoreHash>)
    requires Readable(entries) && h in Total(x, entries, roots, sel)
    ensures Cascades(x, entries, roots, sel, p, h)
  {
    var g := RefGraph(entries);
    var prot := Protected(g, roots, sel);
    var initial := Initial(x, entries, sel, prot);
    p :| Connects(g, sel.mode, prot, initial, p, h);
    InitialIsWanted(x, entries, roots, sel, p[0]);
    forall i | 0 <= i < |p| ensures !(sel.protectGcRoots && Guarded(entries, roots, sel.scope, p[i])) {
      ProtectedIsGuarded(entries, roots, sel, p[i]);
      assert i > 0 ==> Edge(g, sel.mode, prot, p[i - 1], p[i]);
    }
    forall i | 0 < i < |p| ensures Cascade(entries, sel.mode, p[i - 1], p[i]) {
      EdgeIsCascade(entries, sel.mode, prot, p[i - 1], p[i]);
    }
  }

  lemma TotalIsExact(x: Platform, entries: Entries, roots: Roots, sel: CacheSelector, h: StoreHash)
    requires Readable(entries)
    ensures h in Total(x, entries, roots, sel) <==> exists p :: Cascades(x, entries, roots, sel, p, h)
  {
    if h in Total(x, entries, roots, sel) {
      var p := TotalIsCascade(x, entries, roots, sel, h);
    }
    if p :| Cascades(x, entries, roots, sel, p, h) {
      CascadeIsTotal(x, entries, roots, sel, p, h);
    }
  }

  lemma MatchedAreTotal(x: Platform, entries: Entries, roots: Roots, sel: CacheSelector, r: CacheQueryResult, h: StoreHash)
    requires Readable(entries) && QueryAnswer(x, entries, roots, sel, r)
    ensures h in r.matched <==> h in entries && h in Total(x, entries, roots, sel)
    ensures r.activeRoots == ActiveRoots(roots, sel.scope)
  {
  }

  /** An entry is picked exactly when a cascade leads to it from an entry the scope wants. */
  lemma SelectionIsExact(x: Platform, entries: Entries, roots: Roots, sel: CacheSelector, r: CacheQueryResult, h: StoreHash)
    requires Readable(entries) && QueryAnswer(x, entries, roots, sel, r)
    ensures h in r.matched <==> h in entries && exists p :: Cascades(x, entries, roots, sel, p, h)
  {
    MatchedAreTotal(x, entries, roots, sel, r, h);
    TotalIsExact(x, entries, roots, sel, h);
  }

  lemma NoStepIsExact(x: Platform, entries: Entries, roots: Roots, sel: CacheSelector, p: seq<StoreHash>, h: StoreHash)
    requires Readable(entries) && sel.mode == Exact && Cascades(x, entries, roots, sel, p, h)
    ensures p == [h]
  {
    assert |p| > 1 ==> Cascade(entries, sel.mode, p[1 - 1], p[1]);
  }

  lemma ExactCascade(x: Platform, entries: Entries, roots: Roots, sel: CacheSelector, h: StoreHash)
    requires Readable(entries) && sel.mode == Exact
    ensures (exists p :: Cascades(x, entries, roots, sel, p, h)) <==> Cascades(x, entries, roots, sel, [h], h)
  {
    if p :| Cascades(x, entries, roots, sel, p, h) { NoStepIsExact(x, entries, roots, sel, p, h); }
  }

  lemma OneStepIs(x: Platform, entries: Entries, roots: Roots, sel: CacheSelector, h: StoreHash)
    requires Readable(entries)
    ensures Cascades(x, entries, roots, sel, [h], h) <==>
            && h in entries && Wanted(x, sel.scope, h, entries[h])
            && !(sel.protectGcRoots && Guarded(entries, roots, sel.scope, h))
  {
    var p := [h];
    assert p[0] == h;
  }

  /** Without a cascade, the entries the scope wants are picked, apart from the protected ones. */
  lemma ExactModePicks(x: Platform, entries: Entries, roots: Roots, sel: CacheSelector, r: CacheQueryResult, h: StoreHash)
    requires Readable(entries) && QueryAnswer(x, entries, roots, sel, r) && sel.mode == Exact
    ensures h in r.matched <==>
            && h in entries && Wanted(x, sel.scope, h, entries[h])
            && !(sel.protectGcRoots && Guarded(entries, roots, sel.scope, h))
  {
    SelectionIsExact(x, entries, roots, sel, r, h);
    ExactCascade(x, entries, roots, sel, h);
    OneStepIs(x, entries, roots, sel, h);
  }

  lemma ActiveIsTargeted(roots: Roots, scope: Scope, s: SystemArch)
    ensures s in ActiveRoots(roots, scope) <==> s in roots && Targets(scope, s)
    ensures s in ActiveRoots(roots, scope) ==> ActiveRoots(roots, scope)[s] == roots[s]
  {
  }

  /** The reported roots are those of the targeted systems, unchanged. */
  lemma ReportedRootsAreTargeted(x: Platform, entries: Entries, roots: Roots, sel: CacheSelector, r: CacheQueryResult, s: SystemArch)
    requires Readable(entries) && QueryAnswer(x, entries, roots, sel, r)
    ensures s in r.activeRoots <==> s in roots && Targets(sel.scope, s)
    ensures s in r.activeRoots ==> r.activeRoots[s] == roots[s]
  {
    MatchedAreTotal(x, entries, roots, sel, r, "");
    ActiveIsTargeted(roots, sel.scope, s);
  }

  /** Why an entry is picked at first: everything was asked for, or certain filters name it. */
  ghost predicate ReasonIs(x: Platform, sel: CacheSelector, h: StoreHash, e: IndexEntry, why: Reason) {
    match sel.scope
    case All(_) => why == if sel.protectGcRoots then SelectAllUnreachable else SelectAll
    case Filtered(f) => why.Labels? && why.labels != [] && forall l :: l in why.labels <==> LabelHolds(x, f, h, e, l)
    case Nothing => false
  }

  lemma InitialReasonIs(x: Platform, sel: CacheSelector, h: StoreHash, e: IndexEntry)
    requires InitialReason(x, sel, h, e).Some?
    ensures ReasonIs(x, sel, h, e, InitialReason(x, sel, h, e).value)
  {
    if sel.scope.Filtered? { LabelsAreExact(x, sel.scope.predicates, h, e); }
  }

  /** The reason given for an initial match is the one that holds. */
  lemma InitialReasonsAreExact(
    x: Platform, entries: Entries, roots: Roots, sel: CacheSelector, reasons: Reasons, h: StoreHash)
    requires Readable(entries) && ReasonsHold(x, entries, roots, sel, reasons)
    requires h in Initial(x, entries, sel, Protected(RefGraph(entries), roots, sel))
    ensures h in entries && h in reasons && ReasonIs(x, sel, h, entries[h], reasons[h])
  {
    InitialReasonIs(x, sel, h, entries[h]);
  }
}
