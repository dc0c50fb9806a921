/**
 The selection engine: which entries a selector picks, how the choice spreads over the
 reference graph, what the GC roots protect, and why each hash was picked.
 */
module Selection {
  import opened Basics
  import opened Text
  import opened Order
  import opened Types
  import opened Reachability
  import Glob

  // --- Selectors ---------------------------------------------------------------------------

  datatype TimeFilter = Before(instant: int) | After(instant: int) | Between(start: int, end: int)
  datatype SizeFilter = MinBytes(min: nat) | MaxBytes(max: nat) | Range(lo: nat, hi: nat)

  datatype FilterPredicates = FilterPredicates(
    storeHashes: set<StoreHash>, patterns: seq<string>, systems: set<SystemArch>, time: Option<TimeFilter>,
    size: Option<SizeFilter>, jobs: set<string>, runs: set<nat>)

  datatype Scope = All(systems: set<SystemArch>) | Filtered(predicates: FilterPredicates) | Nothing

  datatype CacheSelector = CacheSelector(scope: Scope, mode: CascadeMode, protectGcRoots: bool)

  datatype MatchLabel =
    | SystemMatch | HashMatch | PatternMatch | TimeMatch | SizeMatch | JobMatch | RunMatch

  predicate HasItemFilters(f: FilterPredicates) {
    f.storeHashes != {} || f.patterns != [] || f.time.Some? || f.size.Some? || f.jobs != {} || f.runs != {}
  }

  predicate SystemAllowed(systems: set<SystemArch>, system: Option<SystemArch>) {
    systems == {} || (system.Some? && system.value in systems)
  }

  predicate NameMatches(pattern: string, text: string) {
    Glob.MatchesPattern(Utf8(pattern), Utf8(text))
  }

  predicate PatternHits(patterns: seq<string>, e: IndexEntry) {
    exists p | p in patterns ::
      NameMatches(p, e.name) || NameMatches(p, e.meta.storePath) || NameMatches(p, e.meta.narBasename)
  }

  predicate TimeHits(x: Platform, t: Option<TimeFilter>, added: string) {
    t.Some? && x.instant(added).Some? &&
    var at := x.instant(added).value;
    match t.value
    case Before(limit) => at < limit
    case After(limit) => at > limit
    case Between(start, end) => start <= at <= end
  }

  predicate SizeHits(s: Option<SizeFilter>, size: nat) {
    s.Some? &&
    match s.value
    case MinBytes(min) => size >= min
    case MaxBytes(max) => size <= max
    case Range(lo, hi) => lo <= size <= hi
  }

  function When(c: bool, l: MatchLabel): seq<MatchLabel> {
    if c then [l] else []
  }

  /** `evaluate_entry`: the reasons for which an entry is picked, if it is. */
  function EvaluateEntry(x: Platform, f: FilterPredicates, h: StoreHash, e: IndexEntry): Option<seq<MatchLabel>> {
    if !SystemAllowed(f.systems, e.system) then None
    else if !HasItemFilters(f) then Some([SystemMatch])
    else
      var labels :=
        When(h in f.storeHashes, HashMatch) + When(PatternHits(f.patterns, e), PatternMatch) +
        When(TimeHits(x, f.time, e.added), TimeMatch) + When(SizeHits(f.size, e.narSize), SizeMatch) +
        When(e.origin.Some? && e.origin.value.jobId.Some? && e.origin.value.jobId.value in f.jobs, JobMatch) +
        When(e.origin.Some? && e.origin.value.runId.Some? && e.origin.value.runId.value in f.runs, RunMatch);
      if labels == [] then None else Some(labels)
  }

  function TargetSystems(scope: Scope): set<SystemArch> {
    match scope
    case All(systems) => systems
    case Filtered(f) => f.systems
    case Nothing => {}
  }

  // --- Results --------------------------------------------------------------------------------

  datatype Reason =
    | SelectAll | SelectAllUnreachable | Labels(labels: seq<MatchLabel>)
    | DependentOf(parent: StoreHash) | DependencyOf(parent: StoreHash)

  type Reasons = map<StoreHash, Reason>
  type Roots = map<SystemArch, seq<StoreHash>>

  datatype CacheQueryResult = CacheQueryResult(
    matched: Entries, unmatched: Entries, initialHashes: seq<StoreHash>, finalHashes: seq<StoreHash>,
    reasons: Reasons, matchedBytes: nat, unmatchedBytes: nat, activeRoots: Roots)

  // --- What a query means -----------------------------------------------------------------------

  function Refs(e: IndexEntry): Result<seq<StoreHash>, TypeError> {
    ReferenceHashes(e.meta.references)
  }

  ghost predicate Readable(entries: Entries) {
    forall h | h in entries :: Refs(entries[h]).Ok?
  }

  /** The reference graph: every entry with the hashes it references. */
  function RefGraph(entries: Entries): Graph
    requires forall h | h in entries :: Refs(entries[h]).Ok?
  {
    map h | h in entries :: Refs(entries[h]).value
  }

  function ActiveRoots(roots: Roots, scope: Scope): Roots {
    var targets := TargetSystems(scope);
    map s | s in roots && (targets == {} || s in targets) :: roots[s]
  }

  ghost function RootSet(roots: Roots): set<StoreHash> {
    set s, h | s in roots && h in roots[s] :: h
  }

  /** What the GC roots of the targeted systems keep from being picked. */
  ghost function Protected(g: Graph, roots: Roots, sel: CacheSelector): set<StoreHash> {
    if sel.protectGcRoots then Reach(g, Transitive, {}, RootSet(ActiveRoots(roots, sel.scope))) else {}
  }

  function InitialReason(x: Platform, sel: CacheSelector, h: StoreHash, e: IndexEntry): Option<Reason> {
    match sel.scope
    case All(systems) =>
      if !SystemAllowed(systems, e.system) then None
      else Some(if sel.protectGcRoots then SelectAllUnreachable else SelectAll)
    case Filtered(f) =>
      (match EvaluateEntry(x, f, h, e)
       case None => None
       case Some(labels) => Some(Labels(labels)))
    case Nothing => None
  }

  ghost function Initial(x: Platform, entries: Entries, sel: CacheSelector, prot: set<StoreHash>): set<StoreHash> {
    set h | h in entries && h !in prot && InitialReason(x, sel, h, entries[h]).Some?
  }

  /** All hashes the selection spreads to, entries or not. */
  ghost function Total(x: Platform, entries: Entries, roots: Roots, sel: CacheSelector): set<StoreHash>
    requires Readable(entries)
  {
    var g := RefGraph(entries);
    var prot := Protected(g, roots, sel);
    Reach(g, sel.mode, prot, Initial(x, entries, sel, prot))
  }

  function Restrict(entries: Entries, s: set<StoreHash>): Entries {
    map h | h in entries && h in s :: entries[h]
  }

  /** NAR bytes of some entries, as a number without bound. */
  ghost function Bytes(entries: Entries): nat
    decreases |entries|
  {
    if entries == map[] then 0
    else
      var h :| h in entries;
      entries[h].narSize + Bytes(entries - {h})
  }

  lemma {:induction false} BytesOfOne(entries: Entries, h: StoreHash)
    requires h in entries
    ensures Bytes(entries) == entries[h].narSize + Bytes(entries - {h})
    decreases |entries|
  {
    var k :| k in entries && Bytes(entries) == entries[k].narSize + Bytes(entries - {k});
    if k != h {
      BytesOfOne(entries - {k}, h);
      BytesOfOne(entries - {h}, k);
      assert entries - {k} - {h} == entries - {h} - {k};
    }
  }

  function Parent(r: Reason): Option<StoreHash> {
    match r
    case DependentOf(p) => Some(p)
    case DependencyOf(p) => Some(p)
    case _ => None
  }

  /** A cascade reason names a neighbour of `h` in the direction it states. */
  predicate Adjacent(g: Graph, mode: CascadeMode, avoid: set<StoreHash>, h: StoreHash, r: Reason) {
    match r
    case DependentOf(p) => Edge(g, mode, avoid, p, h) && Refers(g, h, p)
    case DependencyOf(p) => Edge(g, mode, avoid, p, h) && Refers(g, p, h)
    case _ => true
  }

  /** Each reason agrees with the graph, and a parent was picked strictly before its child. */
  ghost predicate Ranked(
    g: Graph, mode: CascadeMode, avoid: set<StoreHash>, initial: set<StoreHash>, reasons: Reasons,
    rank: map<StoreHash, nat>)
  {
    && rank.Keys == reasons.Keys
    && (forall h | h in reasons :: Adjacent(g, mode, avoid, h, reasons[h]))
    && (forall h | h in reasons :: h in initial <==> Parent(reasons[h]).None?)
    && (forall h | h in reasons && Parent(reasons[h]).Some? ::
          var p := Parent(reasons[h]).value; p in reasons && rank[p] < rank[h])
  }

  ghost predicate Explained(
    g: Graph, mode: CascadeMode, avoid: set<StoreHash>, initial: set<StoreHash>, reasons: Reasons)
  {
    exists rank :: Ranked(g, mode, avoid, initial, reasons, rank)
  }

  /** The entries are split into those the selection spreads to and the rest. */
  ghost predicate Picked(
    x: Platform, entries: Entries, roots: Roots, sel: CacheSelector, matched: Entries, unmatched: Entries)
    requires Readable(entries)
  {
    var total := Total(x, entries, roots, sel);
    matched == Restrict(entries, total) && unmatched == entries - total
  }

  ghost predicate ReasonsHold(x: Platform, entries: Entries, roots: Roots, sel: CacheSelector, reasons: Reasons)
    requires Readable(entries)
  {
    var g := RefGraph(entries);
    var prot := Protected(g, roots, sel);
    var initial := Initial(x, entries, sel, prot);
    && reasons.Keys == Total(x, entries, roots, sel)
    && (forall h | h in initial :: h in reasons && Some(reasons[h]) == InitialReason(x, sel, h, entries[h]))
    && Explained(g, sel.mode, prot, initial, reasons)
  }

  /** What `evaluate_cache_query` promises of a successful result. */
  ghost predicate QueryAnswer(x: Platform, entries: Entries, roots: Roots, sel: CacheSelector, r: CacheQueryResult)
    requires Readable(entries)
  {
    && Picked(x, entries, roots, sel, r.matched, r.unmatched)
    && r.initialHashes == SortedSet(Initial(x, entries, sel, Protected(RefGraph(entries), roots, sel)))
    && r.finalHashes == SortedSet(r.matched.Keys)
    && ReasonsHold(x, entries, roots, sel, r.reasons)
    && r.matchedBytes == Wrap(Bytes(r.matched))
    && r.unmatchedBytes == Wrap(Bytes(r.unmatched))
    && r.activeRoots == ActiveRoots(roots, sel.scope)
  }

  // --- The engine ------------------------------------------------------------------------------

  ghost predicate IsReverse(g: Graph, rev: Graph) {
    forall a, b :: Refers(rev, b, a) <==> Refers(g, a, b)
  }

  /** Records `h` as a dependent of each of its references. */
  method AddDependent(reverse: Graph, h: StoreHash, deps: seq<StoreHash>) returns (r: Graph)
    ensures forall a, b :: Refers(r, b, a) <==> Refers(reverse, b, a) || (a == h && b in deps)
  {
    r := reverse;
    for i := 0 to |deps|
      invariant forall a, b :: Refers(r, b, a) <==> Refers(reverse, b, a) || (a == h && b in deps[..i])
    {
      var d := deps[i];
      TakeNext(deps, i);
      ghost var was := r;
      r := r[d := (if d in r then r[d] else []) + [h]];
      forall a, b ensures Refers(r, b, a) <==> Refers(was, b, a) || (a == h && b == d) {
      }
    }
    TakeAll(deps);
  }

  lemma ReverseGrows(g: Graph, was: Graph, rev: Graph, h: StoreHash, deps: seq<StoreHash>)
    requires IsReverse(g, was) && h !in g
    requires forall a, b :: Refers(rev, b, a) <==> Refers(was, b, a) || (a == h && b in deps)
    ensures IsReverse(g[h := deps], rev)
  {
    forall a, b ensures Refers(rev, b, a) <==> Refers(g[h := deps], a, b) {
      assert Refers(was, b, a) <==> Refers(g, a, b);
    }
  }

  /** Collects the forward and the reverse reference graph. */
  method BuildGraphs(entries: Entries) returns (r: Result<(Graph, Graph), TypeError>)
    ensures r.Ok? <==> Readable(entries)
    ensures r.Ok? ==> r.value.0 == RefGraph(entries) && IsReverse(r.value.0, r.value.1)
  {
    var forward: Graph, reverse: Graph := map[], map[];
    var rest := entries.Keys;
    while rest != {}
      invariant rest <= entries.Keys && forward.Keys == entries.Keys - rest
      invariant forall h | h in forward :: Refs(entries[h]) == Ok(forward[h])
      invariant IsReverse(forward, reverse)
      decreases rest
    {
      var h :| h in rest;
      var found := Refs(entries[h]);
      if found.Err? {
        return Err(found.error);
      }
      ghost var was := reverse;
      reverse := AddDependent(reverse, h, found.value);
      ReverseGrows(forward, was, reverse, h, found.value);
      forward := forward[h := found.value];
      rest := rest - {h};
    }
    r := Ok((forward, reverse));
  }

  /** Queues the neighbours that are not marked yet. */
  method PushUnmarked(queue: seq<StoreHash>, deps: seq<StoreHash>, reached: set<StoreHash>)
    returns (r: seq<StoreHash>)
    ensures forall h | h in queue :: h in r
    ensures forall h | h in deps :: h in reached || h in r
    ensures forall h | h in r :: h in queue || h in deps
  {
    r := queue;
    for i := 0 to |deps|
      invariant forall h | h in queue :: h in r
      invariant forall h | h in deps[..i] :: h in reached || h in r
      invariant forall h | h in r :: h in queue || h in deps
    {
      if deps[i] !in reached {
        r := r + [deps[i]];
      }
    }
  }

  /** The worklist loop: a hash is marked when it is taken from the queue. */
  method Mark(g: Graph, start: seq<StoreHash>, ghost all: set<StoreHash>) returns (reached: set<StoreHash>)
    requires Closed(g, Transitive, {}, all) && forall h | h in start :: h in all
    ensures reached <= all && Closed(g, Transitive, {}, reached) && forall h | h in start :: h in reached
  {
    reached := {};
    var queue := start;
    while queue != []
      invariant reached <= all && forall h | h in queue :: h in all
      invariant forall h | h in start :: h in reached || h in queue
      invariant forall a, b | a in reached && Edge(g, Transitive, {}, a, b) :: b in reached || b in queue
      decreases all - reached, |queue|
    {
      var curr, rest := queue[0], queue[1..];
      assert forall h | h in queue :: h == curr || h in rest;
      queue := rest;
      if curr !in reached {
        reached := reached + {curr};
        if curr in g {
          assert forall h | h in g[curr] :: Edge(g, Transitive, {}, curr, h);
          queue := PushUnmarked(queue, g[curr], reached);
        }
      }
    }
  }

  method ForwardClosure(g: Graph, start: seq<StoreHash>) returns (reached: set<StoreHash>)
    ensures reached == Reach(g, Transitive, {}, ToSet(start))
  {
    ReachIsClosed(g, Transitive, {}, ToSet(start));
    reached := Mark(g, start, Reach(g, Transitive, {}, ToSet(start)));
    ReachInsideClosed(g, Transitive, {}, ToSet(start), reached);
  }

  method ListRoots(roots: Roots) returns (all: seq<StoreHash>)
    ensures ToSet(all) == RootSet(roots)
  {
    all := [];
    var rest := roots.Keys;
    while rest != {}
      invariant rest <= roots.Keys
      invariant forall h :: h in all <==> exists s | s in roots && s !in rest :: h in roots[s]
      decreases rest
    {
      var s :| s in rest;
      all := all + roots[s];
      rest := rest - {s};
    }
  }

  /** Adds the unmarked, unprotected neighbours of one hash, each with its reason. */
  method Expand(
    neighbours: seq<StoreHash>, why: Reason, avoid: set<StoreHash>,
    total: set<StoreHash>, reasons: Reasons, queue: seq<StoreHash>)
    returns (total': set<StoreHash>, reasons': Reasons, queue': seq<StoreHash>)
    requires reasons.Keys == total
    ensures forall h :: h in total' <==> h in total || (h in neighbours && h !in avoid)
    ensures forall h :: h in queue' <==> h in queue || h in total' - total
    ensures total' == total ==> queue' == queue
    ensures reasons'.Keys == total'
    ensures forall h | h in total' :: reasons'[h] == if h in total then reasons[h] else why
  {
    total', reasons', queue' := total, reasons, queue;
    for i := 0 to |neighbours|
      invariant forall h :: h in total' <==> h in total || (h in neighbours[..i] && h !in avoid)
      invariant forall h :: h in queue' <==> h in queue || h in total' - total
      invariant total' == total ==> queue' == queue
      invariant reasons'.Keys == total'
      invariant forall h | h in total' :: reasons'[h] == if h in total then reasons[h] else why
    {
      var n := neighbours[i];
      TakeNext(neighbours, i);
      if n !in avoid && n !in total' {
        total', reasons', queue' := total' + {n}, reasons'[n := why], queue' + [n];
      }
    }
    TakeAll(neighbours);
  }

  /** Newly picked neighbours of a picked hash extend the explanation. */
  lemma ExplainedGrows(
    g: Graph, mode: CascadeMode, avoid: set<StoreHash>, initial: set<StoreHash>,
    reasons: Reasons, curr: StoreHash, reasons': Reasons)
    requires Explained(g, mode, avoid, initial, reasons) && initial <= reasons.Keys
    requires curr in reasons && reasons.Keys <= reasons'.Keys
    requires forall h | h in reasons :: reasons'[h] == reasons[h]
    requires forall h | h in reasons' && h !in reasons ::
               Parent(reasons'[h]) == Some(curr) && Adjacent(g, mode, avoid, h, reasons'[h])
    ensures Explained(g, mode, avoid, initial, reasons')
  {
    var rank :| Ranked(g, mode, avoid, initial, reasons, rank);
    var rank' := map h | h in reasons' :: if h in reasons then rank[h] else rank[curr] + 1;
    assert Ranked(g, mode, avoid, initial, reasons', rank');
  }

  lemma LessIsLeft(all: set<StoreHash>, a: set<StoreHash>, b: set<StoreHash>)
    requires a <= b <= all && a != b
    ensures all - b < all - a
  {
    assert !(b <= a);
    var x :| x in b && x !in a;
    assert x in all - a && x !in all - b;
  }

  /** The hashes one step of the mode away: dependents first, then dependencies. */
  function Neighbours(g: Graph, rev: Graph, mode: CascadeMode, h: StoreHash): (r: (seq<StoreHash>, seq<StoreHash>)) {
    (if (mode == Dependents || mode == FullTree) && h in rev then rev[h] else [],
     if (mode == Transitive || mode == FullTree) && h in g then g[h] else [])
  }

  lemma NeighboursAreEdges(g: Graph, rev: Graph, mode: CascadeMode, avoid: set<StoreHash>, h: StoreHash, b: StoreHash)
    requires IsReverse(g, rev)
    ensures b in Neighbours(g, rev, mode, h).0 ==> Refers(g, b, h)
    ensures b in Neighbours(g, rev, mode, h).1 ==> Refers(g, h, b)
    ensures Edge(g, mode, avoid, h, b) <==>
            b !in avoid && (b in Neighbours(g, rev, mode, h).0 || b in Neighbours(g, rev, mode, h).1)
  {
    assert Refers(rev, h, b) <==> Refers(g, b, h);
  }

  /** Visits one hash: its dependents first, then its dependencies, as the mode says. */
  method Visit(
    g: Graph, rev: Graph, mode: CascadeMode, avoid: set<StoreHash>,
    curr: StoreHash, total: set<StoreHash>, reasons: Reasons, queue: seq<StoreHash>)
    returns (total': set<StoreHash>, reasons': Reasons, queue': seq<StoreHash>)
    requires IsReverse(g, rev) && reasons.Keys == total
    ensures forall b :: b in total' <==> b in total || Edge(g, mode, avoid, curr, b)
    ensures forall h :: h in queue' <==> h in queue || h in total' - total
    ensures total' == total ==> queue' == queue
    ensures reasons'.Keys == total' && forall h | h in total :: reasons'[h] == reasons[h]
    ensures forall h | h in total' && h !in total ::
              Parent(reasons'[h]) == Some(curr) && Adjacent(g, mode, avoid, h, reasons'[h])
  {
    var (back, forth) := Neighbours(g, rev, mode, curr);
    forall b {
      NeighboursAreEdges(g, rev, mode, avoid, curr, b);
    }
    var t, r, q := Expand(back, DependentOf(curr), avoid, total, reasons, queue);
    total', reasons', queue' := Expand(forth, DependencyOf(curr), avoid, t, r, q);
  }

  /** The breadth-first cascade: a hash is marked when it is put into the queue. */
  method Spread(
    g: Graph, rev: Graph, mode: CascadeMode, avoid: set<StoreHash>, initial: set<StoreHash>, because: Reasons,
    ghost all: set<StoreHash>)
    returns (total: set<StoreHash>, reasons: Reasons)
    requires IsReverse(g, rev) && because.Keys == initial && Explained(g, mode, avoid, initial, because)
    requires initial <= all && Closed(g, mode, avoid, all)
    ensures initial <= total <= all && Closed(g, mode, avoid, total)
    ensures reasons.Keys == total && Explained(g, mode, avoid, initial, reasons)
    ensures forall h | h in initial :: reasons[h] == because[h]
  {
    total, reasons := initial, because;
    if mode == Exact {
      return;
    }
    var queue := Listing(initial);
    assert forall h :: h in queue <==> h in ToSet(queue);
    while queue != []
      invariant initial <= total <= all && forall h | h in queue :: h in total
      invariant reasons.Keys == total && Explained(g, mode, avoid, initial, reasons)
      invariant forall h | h in initial :: reasons[h] == because[h]
      invariant forall a, b | a in total && a !in queue && Edge(g, mode, avoid, a, b) :: b in total
      decreases all - total, |queue|
    {
      var curr, rest := queue[0], queue[1..];
      assert forall h :: h in queue <==> h == curr || h in rest;
      ghost var before := total;
      ghost var prior := reasons;
      total, reasons, queue := Visit(g, rev, mode, avoid, curr, total, reasons, rest);
      ExplainedGrows(g, mode, avoid, initial, prior, curr, reasons);
      if total != before {
        LessIsLeft(all, before, total);
      }
    }
  }

  /** First round: the entries the scope picks, apart from what the roots protect. */
  method InitialMatches(x: Platform, entries: Entries, sel: CacheSelector, prot: set<StoreHash>)
    returns (initial: set<StoreHash>, listing: seq<StoreHash>, because: Reasons)
    ensures initial == Initial(x, entries, sel, prot)
    ensures listing == SortedSet(initial)
    ensures because.Keys == initial
    ensures forall h | h in initial :: Some(because[h]) == InitialReason(x, sel, h, entries[h])
    ensures forall h | h in because :: Parent(because[h]).None?
  {
    initial, listing, because := {}, [], map[];
    var rest := entries.Keys;
    while rest != {}
      invariant rest <= entries.Keys
      invariant initial == Initial(x, entries, sel, prot) - rest
      invariant ToSet(listing) == initial && Distinct(listing)
      invariant because.Keys == initial
      invariant forall h | h in initial :: Some(because[h]) == InitialReason(x, sel, h, entries[h])
      decreases rest
    {
      var h :| h in rest;
      var why := InitialReason(x, sel, h, entries[h]);
      if h !in prot && why.Some? {
        assert forall i | 0 <= i < |listing| :: listing[i] in ToSet(listing);
        initial, listing, because := initial + {h}, listing + [h], because[h := why.value];
      }
      rest := rest - {h};
    }
    listing := SortListing(listing);
  }

  lemma BytesGrow(m: Entries, h: StoreHash, e: IndexEntry)
    requires h !in m
    ensures Bytes(m[h := e]) == Bytes(m) + e.narSize
    ensures Wrap(Wrap(Bytes(m)) + e.narSize) == Wrap(Bytes(m[h := e]))
  {
    BytesOfOne(m[h := e], h);
    assert m[h := e] - {h} == m;
    WrapSum(Bytes(m), e.narSize);
  }

  /** Puts one entry into a collection and its size onto the collection's `u64` sum. */
  method Collect(m: Entries, bytes: nat, h: StoreHash, e: IndexEntry) returns (m': Entries, bytes': nat)
    requires h !in m && bytes == Wrap(Bytes(m))
    ensures m' == m[h := e] && bytes' == Wrap(Bytes(m'))
  {
    BytesGrow(m, h, e);
    m', bytes' := m[h := e], Wrap(bytes + e.narSize);
  }

  /** One entry less to go moves it to one side and leaves the other. */
  lemma TakeOne(entries: Entries, rest: set<StoreHash>, total: set<StoreHash>, h: StoreHash)
    requires h in rest && rest <= entries.Keys
    ensures var done, done' := entries - rest, entries - (rest - {h});
            && Restrict(done', total) == (if h in total then Restrict(done, total)[h := entries[h]] else Restrict(done, total))
            && done' - total == if h in total then done - total else (done - total)[h := entries[h]]
  {
  }

  /** Last round: splits the entries into picked and kept, with their sizes as `u64` sums. */
  method Split(entries: Entries, total: set<StoreHash>)
    returns (matched: Entries, unmatched: Entries, listing: seq<StoreHash>, inBytes: nat, outBytes: nat)
    ensures matched == Restrict(entries, total) && unmatched == entries - total
    ensures Distinct(listing) && ToSet(listing) == matched.Keys
    ensures inBytes == Wrap(Bytes(matched)) && outBytes == Wrap(Bytes(unmatched))
  {
    matched, unmatched, listing, inBytes, outBytes := map[], map[], [], 0, 0;
    var rest := entries.Keys;
    while rest != {}
      invariant rest <= entries.Keys
      invariant matched == Restrict(entries - rest, total) && unmatched == entries - rest - total
      invariant Distinct(listing) && ToSet(listing) == matched.Keys
      invariant inBytes == Wrap(Bytes(matched)) && outBytes == Wrap(Bytes(unmatched))
      decreases rest
    {
      var h :| h in rest;
      TakeOne(entries, rest, total, h);
      if h in total {
        assert forall i | 0 <= i < |listing| :: listing[i] in ToSet(listing);
        matched, inBytes := Collect(matched, inBytes, h, entries[h]);
        listing := listing + [h];
      } else {
        unmatched, outBytes := Collect(unmatched, outBytes, h, entries[h]);
      }
      rest := rest - {h};
    }
  }

  /** What the active roots protect; nothing when protection is off. */
  method ProtectedClosure(g: Graph, roots: Roots, sel: CacheSelector) returns (prot: set<StoreHash>)
    ensures prot == Protected(g, roots, sel)
  {
    prot := {};
    if sel.protectGcRoots {
      var start := ListRoots(ActiveRoots(roots, sel.scope));
      prot := ForwardClosure(g, start);
    }
  }

  method EvaluateCacheQuery(x: Platform, entries: Entries, roots: Roots, sel: CacheSelector)
    returns (r: Result<CacheQueryResult, TypeError>)
    ensures r.Ok? <==> Readable(entries)
    ensures r.Ok? ==> QueryAnswer(x, entries, roots, sel, r.value)
  {
    var built := BuildGraphs(entries);
    if built.Err? {
      return Err(built.error);
    }
    var (g, rev) := built.value;
    var prot := ProtectedClosure(g, roots, sel);
    var initial, initialHashes, because := InitialMatches(x, entries, sel, prot);
    var total, reasons := SpreadFrom(g, rev, sel.mode, prot, initial, because);
    var matched, unmatched, listing, inBytes, outBytes := Split(entries, total);
    var finalHashes := SortListing(listing);
    r := Ok(CacheQueryResult(matched, unmatched, initialHashes, finalHashes, reasons, inBytes, outBytes,
                             ActiveRoots(roots, sel.scope)));
  }

  method SpreadFrom(
    g: Graph, rev: Graph, mode: CascadeMode, avoid: set<StoreHash>, initial: set<StoreHash>, because: Reasons)
    returns (total: set<StoreHash>, reasons: Reasons)
    requires IsReverse(g, rev) && because.Keys == initial
    requires forall h | h in because :: Parent(because[h]).None?
    ensures total == Reach(g, mode, avoid, initial) && initial <= total
    ensures reasons.Keys == total && Explained(g, mode, avoid, initial, reasons)
    ensures forall h | h in initial :: reasons[h] == because[h]
  {
    assert Ranked(g, mode, avoid, initial, because, map h | h in because :: 0);
    ReachIsClosed(g, mode, avoid, initial);
    total, reasons := Spread(g, rev, mode, avoid, initial, because, Reach(g, mode, avoid, initial));
    ReachInsideClosed(g, mode, avoid, initial, total);
  }
}
