/**
 The Merkle hash of a shard: canonical entry leaves, a layered tree that folds odd levels
 as unary nodes, and a shard root that binds the shard's identity and entry count.
 */
module Merkle {
  import opened Basics
  import opened Text
  import opened Order
  import opened Types
  import opened Encoding

  const V8: Tags := Tags(
    "nixcache/merkle/v8/entry-leaf", "nixcache/merkle/v8/shard-node", "nixcache/merkle/v8/shard-root",
    "nixcache/merkle/v8/descriptor-leaf", "nixcache/merkle/v8/root-node", "nixcache/merkle/v8/root-root",
    "nixcache/merkle/v8/empty-subtree")

  const NUM_SHARDS: nat := 1024

  // --- What is hashed --------------------------------------------------------------------------

  function OriginBytes(o: Option<Origin>): seq<byte> {
    match o
    case None => [0]
    case Some(v) => [1] + (OptU64(v.runId) + OptStr(v.jobId))
  }

  function MetaRest(m: NarInfoMeta): seq<byte> {
    Str(m.narHash) + (StrVec(m.references) + (OptStr(m.deriver) + (StrVec(m.signatures) + OptStr(m.ca))))
  }

  function MetaBytes(m: NarInfoMeta): seq<byte> {
    Str(m.storePath) + (Str(m.narBasename) + (OptStr(m.compression) + (OptStr(m.fileHash) +
    (OptU64(m.fileSize) + MetaRest(m)))))
  }

  function SystemText(s: Option<SystemArch>): Option<string> {
    if s.Some? then Some(SystemName(s.value)) else None
  }

  /** The fields after the NAR info; the digest is written as 32 bytes. */
  function EntryRest(e: IndexEntry): seq<byte>
    requires IsCanonicalDigest(e.narDigest)
  {
    DigestBytes(e.narDigest) + (U64(e.narSize) + (Str(e.added) + OriginBytes(e.origin)))
  }

  /** The bytes of one entry, keyed by its store hash. */
  function EntryBytes(h: StoreHash, e: IndexEntry): seq<byte>
    requires IsCanonicalDigest(e.narDigest)
  {
    Str(h) + (Str(e.name) + (OptStr(SystemText(e.system)) + (MetaBytes(e.meta) + EntryRest(e))))
  }

  function LeafInput(domain: string, h: StoreHash, e: IndexEntry): seq<byte>
    requires IsCanonicalDigest(e.narDigest)
  {
    Str(domain) + EntryBytes(h, e)
  }

  /** A node of the layered tree over one or two children. */
  function NodeInput(domain: string, level: nat, children: seq<Digest>): seq<byte>
    requires 1 <= |children| <= 2
  {
    Str(domain) + (U64(level) + ([|children|] + (children[0] + if |children| == 2 then children[1] else [])))
  }

  function EmptyInput(domain: string): seq<byte> {
    Str(domain) + (U64(0) + [0])
  }

  // --- The layered tree ------------------------------------------------------------------------

  function Width(n: nat): nat {
    (n + 1) / 2
  }

  /** The children of the `k`th node above a level: two, or one for an odd one out. */
  function Pair(nodes: seq<Digest>, k: nat): (r: seq<Digest>)
    requires k < Width(|nodes|)
    ensures 1 <= |r| <= 2
  {
    nodes[2 * k..if 2 * k + 1 < |nodes| then 2 * k + 2 else |nodes|]
  }

  function LevelUp(x: Platform, domain: string, level: nat, nodes: seq<Digest>): (r: seq<Digest>)
    ensures |r| == Width(|nodes|)
  {
    seq<Digest>(Width(|nodes|), k requires 0 <= k < Width(|nodes|) => x.sha(NodeInput(domain, level, Pair(nodes, k))))
  }

  function Climb(x: Platform, domain: string, level: nat, nodes: seq<Digest>): Digest
    requires nodes != []
    decreases |nodes|
  {
    if |nodes| == 1 then nodes[0] else Climb(x, domain, level + 1, LevelUp(x, domain, level, nodes))
  }

  function LayeredRoot(x: Platform, domain: string, leaves: seq<Digest>): Digest {
    if leaves == [] then x.sha(EmptyInput(x.tags.emptySubtree)) else Climb(x, domain, 1, leaves)
  }

  method HashNode(x: Platform, domain: string, level: nat, children: seq<Digest>) returns (d: Digest)
    requires 1 <= |children| <= 2
    ensures d == x.sha(NodeInput(domain, level, children))
  {
    var encoder := new CanonicalEncoder(domain);
    encoder.PutU64(level);
    encoder.PutU8(|children|);
    encoder.PutRaw(children[0]);
    if |children| == 2 {
      encoder.PutRaw(children[1]);
    }
    assert encoder.bytes == NodeInput(domain, level, children);
    d := x.sha(encoder.bytes);
  }

  /** One pass over a level in chunks of two. */
  method FoldLevel(x: Platform, domain: string, level: nat, nodes: seq<Digest>) returns (next: seq<Digest>)
    ensures next == LevelUp(x, domain, level, nodes)
  {
    next := [];
    var i := 0;
    while i < |nodes|
      invariant |next| <= Width(|nodes|) && i == if 2 * |next| < |nodes| then 2 * |next| else |nodes|
      invariant i == |nodes| ==> |next| == Width(|nodes|)
      invariant forall k | 0 <= k < |next| :: next[k] == LevelUp(x, domain, level, nodes)[k]
    {
      var pair := if i + 1 < |nodes| then nodes[i..i + 2] else nodes[i..];
      assert pair == Pair(nodes, |next|);
      var d := HashNode(x, domain, level, pair);
      next := next + [d];
      i := i + |pair|;
    }
  }

  method HashEmpty(x: Platform, domain: string) returns (d: Digest)
    ensures d == x.sha(EmptyInput(domain))
  {
    var encoder := new CanonicalEncoder(domain);
    encoder.PutU64(0);
    encoder.PutU8(0);
    Assoc(Str(domain), U64(0), [0]);
    d := x.sha(encoder.bytes);
  }

  method ComputeLayeredRoot(x: Platform, domain: string, leaves: seq<Digest>) returns (root: Digest)
    ensures root == LayeredRoot(x, domain, leaves)
  {
    if leaves == [] {
      root := HashEmpty(x, x.tags.emptySubtree);
      return;
    }
    var nodes, level := leaves, 1;
    while |nodes| > 1
      invariant nodes != [] && level >= 1 && Climb(x, domain, level, nodes) == LayeredRoot(x, domain, leaves)
      decreases |nodes|
    {
      nodes := FoldLevel(x, domain, level, nodes);
      level := level + 1;
    }
    root := nodes[0];
  }

  // --- Entry leaves ----------------------------------------------------------------------------

  method PutOrigin(encoder: CanonicalEncoder, o: Option<Origin>)
    modifies encoder
    ensures encoder.bytes == old(encoder.bytes) + OriginBytes(o)
  {
    if o.Some? {
      encoder.PutU8(1);
      encoder.PutOptU64(o.value.runId);
      encoder.PutOptString(o.value.jobId);
      Assoc(old(encoder.bytes) + [1], OptU64(o.value.runId), OptStr(o.value.jobId));
      Assoc(old(encoder.bytes), [1], OptU64(o.value.runId) + OptStr(o.value.jobId));
    } else {
      encoder.PutU8(0);
    }
  }

  method PutMeta(encoder: CanonicalEncoder, m: NarInfoMeta)
    modifies encoder
    ensures encoder.bytes == old(encoder.bytes) + MetaBytes(m)
  {
    ghost var b0 := encoder.bytes;
    encoder.PutString(m.storePath);
    ghost var b1 := encoder.bytes;
    encoder.PutString(m.narBasename);
    ghost var b2 := encoder.bytes;
    encoder.PutOptString(m.compression);
    ghost var b3 := encoder.bytes;
    encoder.PutOptString(m.fileHash);
    ghost var b4 := encoder.bytes;
    encoder.PutOptU64(m.fileSize);
    ghost var b5 := encoder.bytes;
    encoder.PutString(m.narHash);
    ghost var b6 := encoder.bytes;
    encoder.PutStringVec(m.references);
    ghost var b7 := encoder.bytes;
    encoder.PutOptString(m.deriver);
    ghost var b8 := encoder.bytes;
    encoder.PutStringVec(m.signatures);
    encoder.PutOptString(m.ca);
    ghost var t9 := OptStr(m.ca);
    ghost var t8 := StrVec(m.signatures) + t9;
    ghost var t7 := OptStr(m.deriver) + t8;
    ghost var t6 := StrVec(m.references) + t7;
    ghost var t5 := Str(m.narHash) + t6;
    ghost var t4 := OptU64(m.fileSize) + t5;
    ghost var t3 := OptStr(m.fileHash) + t4;
    ghost var t2 := OptStr(m.compression) + t3;
    ghost var t1 := Str(m.narBasename) + t2;
    Assoc(b8, StrVec(m.signatures), t9);
    Assoc(b7, OptStr(m.deriver), t8);
    Assoc(b6, StrVec(m.references), t7);
    Assoc(b5, Str(m.narHash), t6);
    Assoc(b4, OptU64(m.fileSize), t5);
    Assoc(b3, OptStr(m.fileHash), t4);
    Assoc(b2, OptStr(m.compression), t3);
    Assoc(b1, Str(m.narBasename), t2);
    Assoc(b0, Str(m.storePath), t1);
  }

  method EntryLeafHash(x: Platform, domain: string, h: StoreHash, e: IndexEntry) returns (r: Result<Digest, CoreError>)
    ensures r.Ok? <==> IsCanonicalDigest(e.narDigest)
    ensures r.Ok? ==> r.value == x.sha(LeafInput(domain, h, e))
    ensures r.Err? ==> r.error == InvalidCanonicalDigest
  {
    CanonicalDigestParses(e.narDigest);
    if ParseNarDigest(e.narDigest) != Ok(e.narDigest) {
      return Err(InvalidCanonicalDigest);
    }
    var encoder := new CanonicalEncoder(domain);
    PutEntry(encoder, h, e);
    r := Ok(x.sha(encoder.bytes));
  }

  method PutEntry(encoder: CanonicalEncoder, h: StoreHash, e: IndexEntry)
    requires IsCanonicalDigest(e.narDigest)
    modifies encoder
    ensures encoder.bytes == old(encoder.bytes) + EntryBytes(h, e)
  {
    ghost var b0 := encoder.bytes;
    encoder.PutBytes(Utf8(h));
    ghost var b1 := encoder.bytes;
    encoder.PutString(e.name);
    ghost var b2 := encoder.bytes;
    encoder.PutOptString(SystemText(e.system));
    ghost var b3 := encoder.bytes;
    PutMeta(encoder, e.meta);
    ghost var b4 := encoder.bytes;
    encoder.PutRaw(DigestBytes(e.narDigest));
    ghost var b5 := encoder.bytes;
    encoder.PutU64(e.narSize);
    ghost var b6 := encoder.bytes;
    encoder.PutString(e.added);
    PutOrigin(encoder, e.origin);
    ghost var t7 := OriginBytes(e.origin);
    ghost var t6 := Str(e.added) + t7;
    ghost var t5 := U64(e.narSize) + t6;
    ghost var t4 := DigestBytes(e.narDigest) + t5;
    ghost var t3 := MetaBytes(e.meta) + t4;
    ghost var t2 := OptStr(SystemText(e.system)) + t3;
    ghost var t1 := Str(e.name) + t2;
    Assoc(b6, Str(e.added), t7);
    Assoc(b5, U64(e.narSize), t6);
    Assoc(b4, DigestBytes(e.narDigest), t5);
    Assoc(b3, MetaBytes(e.meta), t4);
    Assoc(b2, OptStr(SystemText(e.system)), t3);
    Assoc(b1, Str(e.name), t2);
    Assoc(b0, Str(h), t1);
  }

  // --- Shards ----------------------------------------------------------------------------------

  datatype CoreError =
    | InvalidEntry | InvalidMerkle | InvalidCanonicalDigest | InvalidIndex | InvalidShard
    | InvalidShardSet | MissingShard | LimitExceeded

  function Base32Value(c: char): (v: nat)
    ensures v < 32
  {
    var n := c as int;
    if '0' <= c <= '9' then n - 48
    else if 'a' <= c <= 'd' then n - 97 + 10
    else if 'f' <= c <= 'n' then n - 102 + 14
    else if 'p' <= c <= 's' then n - 112 + 23
    else if 'v' <= c <= 'z' then n - 118 + 27
    else 0
  }

  /** The Nix base-32 alphabet: digits and letters without e, o, t and u. */
  function Base32Char(v: nat): (c: char)
    requires v < 32
    ensures IsBase32(c) && Base32Value(c) == v
  {
    if v < 10 then (v + 48) as char
    else if v < 14 then (v - 10 + 97) as char
    else if v < 23 then (v - 14 + 102) as char
    else if v < 27 then (v - 23 + 112) as char
    else (v - 27 + 118) as char
  }

  function ShardId(h: StoreHash): (id: nat)
    requires |h| >= 2
    ensures id < NUM_SHARDS
  {
    32 * Base32Value(h[0]) + Base32Value(h[1])
  }

  function ShardPrefix(id: nat): (p: string)
    ensures |p| == 2
  {
    [Base32Char(id / 32 % 32), Base32Char(id % 32)]
  }

  lemma TwoDigits(a: nat, b: nat, id: nat)
    requires a < 32 && b < 32 && id < NUM_SHARDS
    ensures 32 * a + b == id <==> a == id / 32 % 32 && b == id % 32
  {
  }

  /** The prefix of a shard is what all its hashes start with. */
  lemma PrefixOfShard(h: StoreHash, id: nat)
    requires IsStoreHash(h) && id < NUM_SHARDS
    ensures ShardId(h) == id <==> ShardPrefix(id) <= h
  {
    var p := ShardPrefix(id);
    TwoDigits(Base32Value(h[0]), Base32Value(h[1]), id);
    Base32IsUnique(h[0], p[0]);
    Base32IsUnique(h[1], p[1]);
    assert p <= h <==> p[0] == h[0] && p[1] == h[1];
  }

  lemma Base32IsUnique(c: char, d: char)
    requires IsBase32(c) && IsBase32(d)
    ensures Base32Value(c) == Base32Value(d) ==> c == d
  {
  }

  /** What the hash of a shard demands of one entry. */
  predicate KeyedEntry(x: Platform, id: nat, h: StoreHash, e: IndexEntry) {
    && IsStoreHash(h) && ValidEntry(x, e) && ShardId(h) == id
    && StorePathHash(e.meta.storePath) == Ok(h)
    && IsCanonicalDigest(e.narDigest)
  }

  ghost predicate AcceptedShard(x: Platform, id: nat, entries: Entries) {
    id < NUM_SHARDS && forall h | h in entries :: KeyedEntry(x, id, h, entries[h])
  }

  /** Every NAR digest is in canonical form. */
  ghost predicate Canonical(entries: Entries) {
    forall h | h in entries :: IsCanonicalDigest(entries[h].narDigest)
  }

  /** `validate_entry_identity`, then the leaf of one entry. */
  method CheckedLeaf(x: Platform, id: nat, h: StoreHash, e: IndexEntry) returns (r: Result<Digest, CoreError>)
    ensures r.Ok? <==> KeyedEntry(x, id, h, e)
    ensures r.Ok? ==> r.value == x.sha(LeafInput(x.tags.entryLeaf, h, e))
  {
    if ParseStoreHash(h).Err? {
      TrimmedKeys(h);
      return Err(InvalidEntry);
    }
    TrimShortens(h);
    if !ValidEntry(x, e) {
      return Err(InvalidEntry);
    }
    if ShardId(h) != id {
      return Err(InvalidMerkle);
    }
    if StorePathHash(e.meta.storePath) != Ok(h) {
      return Err(InvalidMerkle);
    }
    PathHashIsStoreHash(e.meta.storePath);
    r := EntryLeafHash(x, x.tags.entryLeaf, h, e);
  }

  lemma TrimmedKeys(h: StoreHash)
    ensures IsStoreHash(h) ==> ParseStoreHash(h).Ok?
  {
    if IsStoreHash(h) { TrimmedIsFixed(h); }
  }

  lemma PathHashIsStoreHash(path: string)
    ensures StorePathHash(path).Ok? ==> IsStoreHash(StorePathHash(path).value)
  {
  }

  ghost predicate Spelled(entries: Entries, keys: seq<StoreHash>) {
    forall h | h in keys :: h in entries && IsCanonicalDigest(entries[h].narDigest)
  }

  ghost function Leaves(x: Platform, entries: Entries, keys: seq<StoreHash>): (r: seq<Digest>)
    requires Spelled(entries, keys)
    ensures |r| == |keys|
  {
    seq<Digest>(|keys|, i requires 0 <= i < |keys| => x.sha(LeafInput(x.tags.entryLeaf, keys[i], entries[keys[i]])))
  }

  function ShardRootInput(domain: string, id: nat, count: nat, subtree: Digest): seq<byte> {
    Str(domain) + (U16(id) + (Str(ShardPrefix(id)) + (U64(count) + subtree)))
  }

  ghost function SortedKeys(entries: Entries): (keys: seq<StoreHash>)
    ensures StrictlySorted(keys) && forall h :: h in keys <==> h in entries
    ensures forall i | 0 <= i < |keys| :: keys[i] in entries
  {
    assert forall h :: h in SortedSet(entries.Keys) <==> h in ToSet(SortedSet(entries.Keys));
    SortedSet(entries.Keys)
  }

  ghost function Subtree(x: Platform, entries: Entries): Digest
    requires Canonical(entries)
  {
    LayeredRoot(x, x.tags.shardNode, Leaves(x, entries, SortedKeys(entries)))
  }

  /** The Merkle hash of a shard, in its text form. */
  ghost function ShardHash(x: Platform, id: nat, entries: Entries): string
    requires Canonical(entries)
  {
    FormatDigest(x.sha(ShardRootInput(x.tags.shardRoot, id, |entries|, Subtree(x, entries))))
  }

  method HashShardRoot(x: Platform, domain: string, id: nat, count: nat, subtree: Digest) returns (d: Digest)
    ensures d == x.sha(ShardRootInput(domain, id, count, subtree))
  {
    var encoder := new CanonicalEncoder(domain);
    encoder.PutU16(id);
    encoder.PutBytes(Utf8(ShardPrefix(id)));
    encoder.PutU64(count);
    encoder.PutRaw(subtree);
    ghost var b, p := Str(domain), Str(ShardPrefix(id));
    Assoc(b + U16(id) + p, U64(count), subtree);
    Assoc(b + U16(id), p, U64(count) + subtree);
    Assoc(b, U16(id), p + (U64(count) + subtree));
    d := x.sha(encoder.bytes);
  }

  method CollectKeys(entries: Entries) returns (keys: seq<StoreHash>)
    ensures keys == SortedKeys(entries)
  {
    var listing := Listing(entries.Keys);
    keys := SortListing(listing);
  }

  ghost predicate AllKeyed(x: Platform, id: nat, entries: Entries, keys: seq<StoreHash>) {
    forall h | h in keys :: h in entries && KeyedEntry(x, id, h, entries[h])
  }

  lemma AllKeyedGrows(x: Platform, id: nat, entries: Entries, keys: seq<StoreHash>, h: StoreHash)
    requires AllKeyed(x, id, entries, keys) && h in entries && KeyedEntry(x, id, h, entries[h])
    ensures AllKeyed(x, id, entries, keys + [h]) && Spelled(entries, keys + [h])
  {
    forall k | k in keys + [h] ensures k in entries && KeyedEntry(x, id, k, entries[k]) {
      assert k in keys || k == h;
    }
  }

  lemma LeavesGrow(x: Platform, entries: Entries, keys: seq<StoreHash>, h: StoreHash)
    requires Spelled(entries, keys) && Spelled(entries, keys + [h]) && h in entries && IsCanonicalDigest(entries[h].narDigest)
    ensures Leaves(x, entries, keys + [h]) == Leaves(x, entries, keys) + [x.sha(LeafInput(x.tags.entryLeaf, h, entries[h]))]
  {
  }

  method CollectLeaves(x: Platform, id: nat, entries: Entries, keys: seq<StoreHash>)
    returns (r: Result<seq<Digest>, CoreError>)
    requires forall h | h in keys :: h in entries
    ensures r.Ok? <==> AllKeyed(x, id, entries, keys)
    ensures r.Ok? ==> Spelled(entries, keys) && r.value == Leaves(x, entries, keys)
  {
    var leaves: seq<Digest> := [];
    for i := 0 to |keys|
      invariant AllKeyed(x, id, entries, keys[..i]) && Spelled(entries, keys[..i])
      invariant leaves == Leaves(x, entries, keys[..i])
    {
      assert keys[i] in keys;
      var leaf := CheckedLeaf(x, id, keys[i], entries[keys[i]]);
      if leaf.Err? {
        return Err(leaf.error);
      }
      TakeNext(keys, i);
      AllKeyedGrows(x, id, entries, keys[..i], keys[i]);
      LeavesGrow(x, entries, keys[..i], keys[i]);
      leaves := leaves + [leaf.value];
    }
    TakeAll(keys);
    r := Ok(leaves);
  }

  /** `compute_shard_merkle_hash`: refuses a shard that holds an entry it should not. */
  method ComputeShardHash(x: Platform, id: nat, entries: Entries) returns (r: Result<string, CoreError>)
    ensures r.Ok? <==> AcceptedShard(x, id, entries)
    ensures r.Ok? ==> Canonical(entries) && r.value == ShardHash(x, id, entries)
  {
    if id >= NUM_SHARDS {
      return Err(InvalidMerkle);
    }
    var keys := CollectKeys(entries);
    var leaves := CollectLeaves(x, id, entries, keys);
    if leaves.Err? {
      return Err(leaves.error);
    }
    var subtree := ComputeLayeredRoot(x, x.tags.shardNode, leaves.value);
    var root := HashShardRoot(x, x.tags.shardRoot, id, |entries|, subtree);
    r := Ok(FormatDigest(root));
  }
}
