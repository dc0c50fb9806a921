/**
 Binding: a shard hash stands for one shard identity and one set of entries. SHA-256 is not
 assumed injective: if two different shards have one hash, then the two computations
 themselves hashed two different byte strings to the same digest.
 */
module MerkleBinding {
  import opened Basics
  import opened Order
  import opened Types
  import opened Encoding
  import opened Merkle

  /** Two different strings, one from each side, with one digest. */
  ghost predicate Collide(x: Platform, a: set<seq<byte>>, b: set<seq<byte>>) {
    exists s, t :: s in a && t in b && s != t && x.sha(s) == x.sha(t)
  }

  lemma SameInput(x: Platform, a: set<seq<byte>>, b: set<seq<byte>>, s: seq<byte>, t: seq<byte>)
    requires s in a && t in b && x.sha(s) == x.sha(t)
    ensures s == t || Collide(x, a, b)
  {
  }

  // --- Hash inputs are read one way --------------------------------------------------------------

  /** Inputs of different domains never coincide, and equal inputs have equal bodies. */
  lemma DomainsAreSeparate(d: string, r: seq<byte>, e: string, s: seq<byte>)
    requires Sized(d) && Sized(e)
    ensures Str(d) + r == Str(e) + s <==> d == e && r == s
  {
    if Str(d) + r == Str(e) + s {
      SplitStr(d, r, e, s);
    }
  }

  function TagList(t: Tags): seq<string> {
    [t.entryLeaf, t.shardNode, t.shardRoot, t.descriptorLeaf, t.rootNode, t.rootRoot, t.emptySubtree]
  }

  /** The tags differ from one another and are short. */
  lemma V8TagsDiffer(i: nat, j: nat)
    requires i < 7 && j < 7
    ensures |TagList(V8)[i]| < 64 && (TagList(V8)[i] == TagList(V8)[j] ==> i == j)
  {
  }

  /** No string hashed under one of the tags is ever one hashed under another. */
  lemma KindsAreSeparate(i: nat, j: nat, r: seq<byte>, s: seq<byte>)
    requires i < 7 && j < 7 && i != j
    ensures Str(TagList(V8)[i]) + r != Str(TagList(V8)[j]) + s
  {
    V8TagsDiffer(i, j);
    V8TagsDiffer(j, i);
    DomainsAreSeparate(TagList(V8)[i], r, TagList(V8)[j], s);
  }

  /** Equal nodes have the same children; the arity tells unary from binary ones. */
  lemma NodeIsReadOneWay(domain: string, level: nat, c: seq<Digest>, d: seq<Digest>)
    requires 1 <= |c| <= 2 && 1 <= |d| <= 2 && NodeInput(domain, level, c) == NodeInput(domain, level, d)
    ensures c == d
  {
    var tc, td := c[0] + (if |c| == 2 then c[1] else []), d[0] + (if |d| == 2 then d[1] else []);
    SplitFixed(Str(domain), U64(level) + ([|c|] + tc), Str(domain), U64(level) + ([|d|] + td));
    SplitFixed(U64(level), [|c|] + tc, U64(level), [|d|] + td);
    SplitFixed([|c|], tc, [|d|], td);
    assert |c| == |d|;
    SplitFixed(c[0], if |c| == 2 then c[1] else [], d[0], if |d| == 2 then d[1] else []);
  }

  ghost predicate SizedMeta(m: NarInfoMeta) {
    && Sized(m.storePath) && Sized(m.narBasename) && Sized(m.narHash)
    && (m.compression.Some? ==> Sized(m.compression.value))
    && (m.fileHash.Some? ==> Sized(m.fileHash.value))
    && (m.fileSize.Some? ==> m.fileSize.value < U64_LIMIT)
    && AllSized(m.references) && AllSized(m.signatures)
    && (m.deriver.Some? ==> Sized(m.deriver.value))
    && (m.ca.Some? ==> Sized(m.ca.value))
  }

  /** Lengths and numbers are those of Rust values: they fit in 64 bits. */
  ghost predicate SizedEntry(e: IndexEntry) {
    && Sized(e.name) && Sized(e.added) && SizedMeta(e.meta) && e.narSize < U64_LIMIT
    && (e.origin.Some? && e.origin.value.runId.Some? ==> e.origin.value.runId.value < U64_LIMIT)
    && (e.origin.Some? && e.origin.value.jobId.Some? ==> Sized(e.origin.value.jobId.value))
  }

  /** The second half of the fields. */
  lemma MetaRestIsReadOneWay(m: NarInfoMeta, r: seq<byte>, n: NarInfoMeta, s: seq<byte>)
    requires SizedMeta(m) && SizedMeta(n) && MetaRest(m) + r == MetaRest(n) + s
    ensures r == s && m.narHash == n.narHash && m.references == n.references && m.deriver == n.deriver
    ensures m.signatures == n.signatures && m.ca == n.ca
  {
    var (m9, n9) := (OptStr(m.ca), OptStr(n.ca));
    var (m8, n8) := (StrVec(m.signatures) + m9, StrVec(n.signatures) + n9);
    var (m7, n7) := (OptStr(m.deriver) + m8, OptStr(n.deriver) + n8);
    var (m6, n6) := (StrVec(m.references) + m7, StrVec(n.references) + n7);
    Assoc(Str(m.narHash), m6, r); Assoc(Str(n.narHash), n6, s);
    SplitStr(m.narHash, m6 + r, n.narHash, n6 + s);
    Assoc(StrVec(m.references), m7, r); Assoc(StrVec(n.references), n7, s);
    SplitStrVec(m.references, m7 + r, n.references, n7 + s);
    Assoc(OptStr(m.deriver), m8, r); Assoc(OptStr(n.deriver), n8, s);
    SplitOptStr(m.deriver, m8 + r, n.deriver, n8 + s);
    Assoc(StrVec(m.signatures), m9, r); Assoc(StrVec(n.signatures), n9, s);
    SplitStrVec(m.signatures, m9 + r, n.signatures, n9 + s);
    SplitOptStr(m.ca, r, n.ca, s);
  }

  lemma MetaIsReadOneWay(m: NarInfoMeta, r: seq<byte>, n: NarInfoMeta, s: seq<byte>)
    requires SizedMeta(m) && SizedMeta(n) && MetaBytes(m) + r == MetaBytes(n) + s
    ensures m == n && r == s
  {
    var (m5, n5) := (MetaRest(m), MetaRest(n));
    var (m4, n4) := (OptU64(m.fileSize) + m5, OptU64(n.fileSize) + n5);
    var (m3, n3) := (OptStr(m.fileHash) + m4, OptStr(n.fileHash) + n4);
    var (m2, n2) := (OptStr(m.compression) + m3, OptStr(n.compression) + n3);
    var (m1, n1) := (Str(m.narBasename) + m2, Str(n.narBasename) + n2);
    Assoc(Str(m.storePath), m1, r); Assoc(Str(n.storePath), n1, s);
    SplitStr(m.storePath, m1 + r, n.storePath, n1 + s);
    Assoc(Str(m.narBasename), m2, r); Assoc(Str(n.narBasename), n2, s);
    SplitStr(m.narBasename, m2 + r, n.narBasename, n2 + s);
    Assoc(OptStr(m.compression), m3, r); Assoc(OptStr(n.compression), n3, s);
    SplitOptStr(m.compression, m3 + r, n.compression, n3 + s);
    Assoc(OptStr(m.fileHash), m4, r); Assoc(OptStr(n.fileHash), n4, s);
    SplitOptStr(m.fileHash, m4 + r, n.fileHash, n4 + s);
    Assoc(OptU64(m.fileSize), m5, r); Assoc(OptU64(n.fileSize), n5, s);
    SplitOptU64(m.fileSize, m5 + r, n.fileSize, n5 + s);
    MetaRestIsReadOneWay(m, r, n, s);
  }

  lemma OriginIsReadOneWay(a: Option<Origin>, b: Option<Origin>)
    requires a.Some? && a.value.runId.Some? ==> a.value.runId.value < U64_LIMIT
    requires a.Some? && a.value.jobId.Some? ==> Sized(a.value.jobId.value)
    requires b.Some? && b.value.runId.Some? ==> b.value.runId.value < U64_LIMIT
    requires b.Some? && b.value.jobId.Some? ==> Sized(b.value.jobId.value)
    requires OriginBytes(a) == OriginBytes(b)
    ensures a == b
  {
    var ra := if a.Some? then OptU64(a.value.runId) + OptStr(a.value.jobId) else [];
    var rb := if b.Some? then OptU64(b.value.runId) + OptStr(b.value.jobId) else [];
    SplitTag(if a.Some? then 1 else 0, ra, if b.Some? then 1 else 0, rb);
    if a.Some? {
      SplitOptU64(a.value.runId, OptStr(a.value.jobId), b.value.runId, OptStr(b.value.jobId));
      var ja, jb := OptStr(a.value.jobId), OptStr(b.value.jobId);
      assert ja + [] == ja && jb + [] == jb;
      SplitOptStr(a.value.jobId, [], b.value.jobId, []);
    }
  }

  lemma SystemNamesDiffer(a: SystemArch, b: SystemArch)
    requires SystemName(a) == SystemName(b)
    ensures a == b
  {
    var s, t := SystemName(a), SystemName(b);
    assert |s| == |t| && s[0] == t[0] && s[4] == t[4];
    assert |s| > 7 ==> s[7] == t[7];
  }

  lemma {:induction false} SystemNamesAreShort(a: SystemArch)
    ensures Sized(SystemName(a))
  {
  }

  lemma SystemIsReadOneWay(a: Option<SystemArch>, r: seq<byte>, b: Option<SystemArch>, s: seq<byte>)
    requires OptStr(SystemText(a)) + r == OptStr(SystemText(b)) + s
    ensures a == b && r == s
  {
    if a.Some? { SystemNamesAreShort(a.value); }
    if b.Some? { SystemNamesAreShort(b.value); }
    SplitOptStr(SystemText(a), r, SystemText(b), s);
    if a.Some? { SystemNamesDiffer(a.value, b.value); }
  }

  lemma EntryRestIsReadOneWay(e: IndexEntry, f: IndexEntry)
    requires SizedEntry(e) && SizedEntry(f)
    requires IsCanonicalDigest(e.narDigest) && IsCanonicalDigest(f.narDigest) && EntryRest(e) == EntryRest(f)
    ensures e.narDigest == f.narDigest && e.narSize == f.narSize && e.added == f.added && e.origin == f.origin
  {
    var (e7, f7) := (OriginBytes(e.origin), OriginBytes(f.origin));
    var (e6, f6) := (Str(e.added) + e7, Str(f.added) + f7);
    SplitFixed(DigestBytes(e.narDigest), U64(e.narSize) + e6, DigestBytes(f.narDigest), U64(f.narSize) + f6);
    DigestBytesInjective(e.narDigest, f.narDigest);
    SplitU64(e.narSize, e6, f.narSize, f6);
    SplitStr(e.added, e7, f.added, f7);
    OriginIsReadOneWay(e.origin, f.origin);
  }

  lemma EntryIsReadOneWay(h: StoreHash, e: IndexEntry, k: StoreHash, f: IndexEntry)
    requires Sized(h) && Sized(k) && SizedEntry(e) && SizedEntry(f)
    requires IsCanonicalDigest(e.narDigest) && IsCanonicalDigest(f.narDigest) && EntryBytes(h, e) == EntryBytes(k, f)
    ensures h == k && e == f
  {
    var (e3, f3) := (MetaBytes(e.meta) + EntryRest(e), MetaBytes(f.meta) + EntryRest(f));
    var (e2, f2) := (OptStr(SystemText(e.system)) + e3, OptStr(SystemText(f.system)) + f3);
    SplitStr(h, Str(e.name) + e2, k, Str(f.name) + f2);
    SplitStr(e.name, e2, f.name, f2);
    SystemIsReadOneWay(e.system, e3, f.system, f3);
    MetaIsReadOneWay(e.meta, EntryRest(e), f.meta, EntryRest(f));
    EntryRestIsReadOneWay(e, f);
  }

  // --- The tree binds its leaves -----------------------------------------------------------------

  /** The node strings hashed on one level. */
  ghost function LevelInputs(domain: string, level: nat, nodes: seq<Digest>): set<seq<byte>> {
    set k | 0 <= k < Width(|nodes|) :: NodeInput(domain, level, Pair(nodes, k))
  }

  ghost function ClimbInputs(x: Platform, domain: string, level: nat, nodes: seq<Digest>): set<seq<byte>>
    decreases |nodes|
  {
    if |nodes| <= 1 then {}
    else LevelInputs(domain, level, nodes) + ClimbInputs(x, domain, level + 1, LevelUp(x, domain, level, nodes))
  }

  lemma CollideInMore(x: Platform, a: set<seq<byte>>, b: set<seq<byte>>, a': set<seq<byte>>, b': set<seq<byte>>)
    requires Collide(x, a, b) && a <= a' && b <= b'
    ensures Collide(x, a', b')
  {
  }

  /** One level up determines the level below. */
  lemma LevelBinds(x: Platform, domain: string, level: nat, m: seq<Digest>, n: seq<Digest>)
    requires |m| == |n| && LevelUp(x, domain, level, m) == LevelUp(x, domain, level, n)
    ensures m == n || Collide(x, LevelInputs(domain, level, m), LevelInputs(domain, level, n))
  {
    var a, b := LevelInputs(domain, level, m), LevelInputs(domain, level, n);
    if !Collide(x, a, b) {
      forall i | 0 <= i < |m| ensures m[i] == n[i] {
        var k := i / 2;
        var s, t := NodeInput(domain, level, Pair(m, k)), NodeInput(domain, level, Pair(n, k));
        assert LevelUp(x, domain, level, m)[k] == x.sha(s) && LevelUp(x, domain, level, n)[k] == x.sha(t);
        SameInput(x, a, b, s, t);
        NodeIsReadOneWay(domain, level, Pair(m, k), Pair(n, k));
        assert Pair(m, k)[i - 2 * k] == m[i] && Pair(n, k)[i - 2 * k] == n[i];
      }
    }
  }

  lemma {:induction false} ClimbBinds(x: Platform, domain: string, level: nat, m: seq<Digest>, n: seq<Digest>)
    requires 0 < |m| == |n| && Climb(x, domain, level, m) == Climb(x, domain, level, n)
    ensures m == n || Collide(x, ClimbInputs(x, domain, level, m), ClimbInputs(x, domain, level, n))
    decreases |m|
  {
    if |m| > 1 {
      var u, v := LevelUp(x, domain, level, m), LevelUp(x, domain, level, n);
      ClimbBinds(x, domain, level + 1, u, v);
      var a, b := ClimbInputs(x, domain, level, m), ClimbInputs(x, domain, level, n);
      if u == v {
        LevelBinds(x, domain, level, m, n);
        if m != n {
          CollideInMore(x, LevelInputs(domain, level, m), LevelInputs(domain, level, n), a, b);
        }
      } else {
        CollideInMore(x, ClimbInputs(x, domain, level + 1, u), ClimbInputs(x, domain, level + 1, v), a, b);
      }
    }
  }

  // --- The shard hash binds the shard --------------------------------------------------------------

  ghost function LeafInputs(x: Platform, entries: Entries, keys: seq<StoreHash>): set<seq<byte>>
    requires Spelled(entries, keys)
  {
    set i | 0 <= i < |keys| :: LeafInput(x.tags.entryLeaf, keys[i], entries[keys[i]])
  }

  /** Every byte string that is hashed on the way to a shard's hash. */
  ghost function ShardInputs(x: Platform, id: nat, entries: Entries): set<seq<byte>>
    requires Canonical(entries)
  {
    var keys := SortedKeys(entries);
    {ShardRootInput(x.tags.shardRoot, id, |entries|, Subtree(x, entries))} +
    LeafInputs(x, entries, keys) +
    ClimbInputs(x, x.tags.shardNode, 1, Leaves(x, entries, keys))
  }

  ghost predicate SizedShard(entries: Entries) {
    |entries| < U64_LIMIT && forall h | h in entries :: Sized(h) && SizedEntry(entries[h])
  }

  lemma ShardRootIsReadOneWay(
    domain: string, id: nat, count: nat, d: Digest, id': nat, count': nat, d': Digest)
    requires id < NUM_SHARDS && id' < NUM_SHARDS && count < U64_LIMIT && count' < U64_LIMIT
    requires ShardRootInput(domain, id, count, d) == ShardRootInput(domain, id', count', d')
    ensures id == id' && count == count' && d == d'
  {
    var (p, p') := (Str(ShardPrefix(id)), Str(ShardPrefix(id')));
    SplitFixed(Str(domain), U16(id) + (p + (U64(count) + d)), Str(domain), U16(id') + (p' + (U64(count') + d')));
    SplitFixed(U16(id), p + (U64(count) + d), U16(id'), p' + (U64(count') + d'));
    U16Injective(id, id');
    SplitFixed(p, U64(count) + d, p', U64(count') + d');
    SplitU64(count, d, count', d');
  }

  /** Maps with one listing of keys and equal values along it are equal. */
  lemma ListingDeterminesMap(a: Entries, b: Entries, keys: seq<StoreHash>)
    requires forall h :: h in keys <==> h in a
    requires forall h :: h in keys <==> h in b
    requires forall i | 0 <= i < |keys| :: a[keys[i]] == b[keys[i]]
    ensures a == b
  {
    assert a.Keys == b.Keys;
    forall h | h in a ensures a[h] == b[h] {
      var i :| 0 <= i < |keys| && keys[i] == h;
    }
  }

  ghost predicate SameAt(a: Entries, b: Entries, i: nat) {
    && i < |SortedKeys(a)| && i < |SortedKeys(b)|
    && SortedKeys(a)[i] == SortedKeys(b)[i] && a[SortedKeys(a)[i]] == b[SortedKeys(b)[i]]
  }

  lemma SameEverywhere(a: Entries, b: Entries)
    requires |SortedKeys(a)| == |SortedKeys(b)| && forall i | 0 <= i < |SortedKeys(a)| :: SameAt(a, b, i)
    ensures a == b
  {
    var ka, kb := SortedKeys(a), SortedKeys(b);
    forall i | 0 <= i < |ka| ensures ka[i] == kb[i] && a[ka[i]] == b[ka[i]] {
      assert SameAt(a, b, i);
    }
    assert ka == kb;
    ListingDeterminesMap(a, b, ka);
  }

  lemma LeafAtBinds(x: Platform, a: Entries, b: Entries, i: nat)
    requires Canonical(a) && Canonical(b) && SizedShard(a) && SizedShard(b)
    requires Leaves(x, a, SortedKeys(a)) == Leaves(x, b, SortedKeys(b)) && i < |SortedKeys(a)| == |SortedKeys(b)|
    requires !Collide(x, LeafInputs(x, a, SortedKeys(a)), LeafInputs(x, b, SortedKeys(b)))
    ensures SameAt(a, b, i)
  {
    var ka, kb := SortedKeys(a), SortedKeys(b);
    var h, k := ka[i], kb[i];
    assert h in ka && k in kb;
    assert Leaves(x, a, ka)[i] == Leaves(x, b, kb)[i];
    LeafBinds(x, LeafInputs(x, a, ka), LeafInputs(x, b, kb), a, h, b, k);
  }

  /** Leaves over strictly sorted keys determine the map. */
  lemma LeavesBind(x: Platform, a: Entries, b: Entries)
    requires Canonical(a) && Canonical(b) && SizedShard(a) && SizedShard(b)
    requires |SortedKeys(a)| == |SortedKeys(b)| && Leaves(x, a, SortedKeys(a)) == Leaves(x, b, SortedKeys(b))
    ensures a == b || Collide(x, LeafInputs(x, a, SortedKeys(a)), LeafInputs(x, b, SortedKeys(b)))
  {
    if !Collide(x, LeafInputs(x, a, SortedKeys(a)), LeafInputs(x, b, SortedKeys(b))) {
      forall i | 0 <= i < |SortedKeys(a)| ensures SameAt(a, b, i) {
        LeafAtBinds(x, a, b, i);
      }
      SameEverywhere(a, b);
    }
  }

  lemma LeafBinds(
    x: Platform, ia: set<seq<byte>>, ib: set<seq<byte>>, a: Entries, h: StoreHash, b: Entries, k: StoreHash)
    requires h in a && k in b && IsCanonicalDigest(a[h].narDigest) && IsCanonicalDigest(b[k].narDigest)
    requires Sized(h) && Sized(k) && SizedEntry(a[h]) && SizedEntry(b[k])
    requires LeafInput(x.tags.entryLeaf, h, a[h]) in ia && LeafInput(x.tags.entryLeaf, k, b[k]) in ib
    requires x.sha(LeafInput(x.tags.entryLeaf, h, a[h])) == x.sha(LeafInput(x.tags.entryLeaf, k, b[k]))
    requires !Collide(x, ia, ib)
    ensures h == k && a[h] == b[k]
  {
    var s, t := LeafInput(x.tags.entryLeaf, h, a[h]), LeafInput(x.tags.entryLeaf, k, b[k]);
    SameInput(x, ia, ib, s, t);
    SplitFixed(Str(x.tags.entryLeaf), EntryBytes(h, a[h]), Str(x.tags.entryLeaf), EntryBytes(k, b[k]));
    EntryIsReadOneWay(h, a[h], k, b[k]);
  }

  lemma {:induction false} CountOfKeys(keys: seq<StoreHash>)
    requires Distinct(keys)
    ensures |ToSet(keys)| == |keys|
  {
    if keys != [] {
      var last := keys[|keys| - 1];
      var init := keys[..|keys| - 1];
      CountOfKeys(init);
      assert keys == init + [last];
      assert ToSet(keys) == ToSet(init) + {last} && last !in ToSet(init);
    } else {
      assert ToSet(keys) == {};
    }
  }

  lemma KeyCount(entries: Entries)
    ensures |SortedKeys(entries)| == |entries|
  {
    var keys := SortedKeys(entries);
    forall i, j | 0 <= i < j < |keys| ensures keys[i] != keys[j] {
      LessIsIrreflexive(keys[i]);
    }
    CountOfKeys(keys);
    assert ToSet(keys) == entries.Keys;
  }

  /** Equal shard hashes mean one shard, or a collision among the strings that were hashed. */
  lemma ShardHashBinds(x: Platform, id: nat, a: Entries, id': nat, b: Entries)
    requires id < NUM_SHARDS && id' < NUM_SHARDS && Canonical(a) && Canonical(b) && SizedShard(a) && SizedShard(b)
    requires ShardHash(x, id, a) == ShardHash(x, id', b)
    ensures (id == id' && a == b) || Collide(x, ShardInputs(x, id, a), ShardInputs(x, id', b))
  {
    var ia, ib := ShardInputs(x, id, a), ShardInputs(x, id', b);
    var ra := ShardRootInput(x.tags.shardRoot, id, |a|, Subtree(x, a));
    var rb := ShardRootInput(x.tags.shardRoot, id', |b|, Subtree(x, b));
    FormatInjective(x.sha(ra), x.sha(rb));
    SameInput(x, ia, ib, ra, rb);
    if ra == rb {
      ShardRootIsReadOneWay(x.tags.shardRoot, id, |a|, Subtree(x, a), id', |b|, Subtree(x, b));
      SubtreeBinds(x, id, a, b, ia, ib);
    }
  }

  lemma SubtreeBinds(
    x: Platform, id: nat, a: Entries, b: Entries, ia: set<seq<byte>>, ib: set<seq<byte>>)
    requires Canonical(a) && Canonical(b) && SizedShard(a) && SizedShard(b)
    requires |a| == |b| && Subtree(x, a) == Subtree(x, b)
    requires ShardInputs(x, id, a) <= ia && ShardInputs(x, id, b) <= ib
    ensures a == b || Collide(x, ia, ib)
  {
    KeyCount(a);
    KeyCount(b);
    var ka, kb := SortedKeys(a), SortedKeys(b);
    var la, lb := Leaves(x, a, ka), Leaves(x, b, kb);
    if la != [] {
      ClimbBinds(x, x.tags.shardNode, 1, la, lb);
    }
    if la == lb {
      LeavesBind(x, a, b);
      if a != b {
        CollideInMore(x, LeafInputs(x, a, ka), LeafInputs(x, b, kb), ia, ib);
      }
    } else {
      CollideInMore(x, ClimbInputs(x, x.tags.shardNode, 1, la), ClimbInputs(x, x.tags.shardNode, 1, lb), ia, ib);
    }
  }
}
