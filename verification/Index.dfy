/**
 The index of each architecture as published: a root of 1024 shard descriptors over the
 blob store. Promoting and purging rewrite only the shards they touch; the class keeps the
 one map of entries that every published root stands for beside it.
 */
module Index {
  import opened Basics
  import opened Text
  import opened Types
  import opened Merkle
  import opened Root
  import opened Store

  datatype ArchRoot = ArchRoot(
    version: nat, system: SystemArch, repo: string, registry: string, generated: string, publicKey: string,
    shards: seq<ShardDescriptor>, merkleRoot: string, gcRoots: seq<StoreHash>, lastPromotedRun: Option<nat>)

  // --- Structure of a root ---------------------------------------------------------------------

  ghost predicate InOrder(x: Platform, shards: seq<ShardDescriptor>) {
    |shards| == NUM_SHARDS && forall i | 0 <= i < NUM_SHARDS :: shards[i].shardId == i && ValidDescriptor(x, shards[i])
  }

  /** The Merkle root of a root record is that of its descriptors. */
  ghost predicate RootMatches(x: Platform, shards: seq<ShardDescriptor>, merkleRoot: string) {
    (forall i | 0 <= i < |shards| :: WellSpelled(shards[i])) && merkleRoot == RootHash(x, shards)
  }

  predicate WellFormed(x: Platform, r: ArchRoot) {
    && r.version == SCHEMA_VERSION && r.system != Unknown && Trim(r.repo) != "" && Trim(r.registry) != ""
    && Trim(r.generated) != "" && x.instant(r.generated).Some? && |r.shards| == NUM_SHARDS
  }

  /** `ShardedArchCacheIndexData::validate_structure`. */
  ghost predicate ValidRoot(x: Platform, r: ArchRoot) {
    WellFormed(x, r) && InOrder(x, r.shards) && IsCanonicalDigest(r.merkleRoot) && RootMatches(x, r.shards, r.merkleRoot)
  }

  lemma InOrderIsComplete(x: Platform, s: seq<ShardDescriptor>)
    requires InOrder(x, s)
    ensures OnePerShard(x, s) && OrderedAs(s, s)
  {
    forall id | 0 <= id < NUM_SHARDS ensures HasId(s, id) {
      assert s[id].shardId == id;
    }
  }

  method CheckOrder(x: Platform, s: seq<ShardDescriptor>) returns (ok: bool)
    requires |s| == NUM_SHARDS
    ensures ok <==> InOrder(x, s)
  {
    for i := 0 to NUM_SHARDS
      invariant forall j | 0 <= j < i :: s[j].shardId == j && ValidDescriptor(x, s[j])
    {
      if s[i].shardId != i {
        return false;
      }
      var valid := ValidateDescriptor(x, s[i]);
      if !valid {
        return false;
      }
    }
    ok := true;
  }

  method ValidateRoot(x: Platform, r: ArchRoot) returns (ok: bool)
    ensures ok <==> ValidRoot(x, r)
  {
    if !WellFormed(x, r) {
      return false;
    }
    var ordered := CheckOrder(x, r.shards);
    if !ordered {
      return false;
    }
    if !IsCanonicalDigest(r.merkleRoot) {
      return false;
    }
    InOrderIsComplete(x, r.shards);
    var root := ComputeMerkleRoot(x, r.shards);
    ok := root.value == r.merkleRoot;
  }

  // --- The map a root stands for ---------------------------------------------------------------

  ghost predicate AllHashes(m: Entries) {
    forall h | h in m :: IsStoreHash(h)
  }

  /** The part of a map that belongs to one shard. */
  ghost function InShard(m: Entries, id: nat): Entries
    requires AllHashes(m)
  {
    map h | h in m && ShardId(h) == id :: m[h]
  }

  lemma InShardOfMerge(m: Entries, n: Entries, id: nat)
    requires AllHashes(m) && AllHashes(n)
    ensures AllHashes(m + n) && InShard(m + n, id) == InShard(m, id) + InShard(n, id)
  {
  }

  lemma InShardUntouched(m: Entries, n: Entries, id: nat)
    requires AllHashes(m) && AllHashes(n) && InShard(n, id) == map[]
    ensures AllHashes(m + n) && InShard(m + n, id) == InShard(m, id)
  {
    InShardOfMerge(m, n, id);
  }

  lemma InShardOfRest(m: Entries, gone: set<StoreHash>, id: nat)
    requires AllHashes(m)
    ensures AllHashes(m - gone) && InShard(m - gone, id) == InShard(m, id) - gone
  {
  }

  /** A sound descriptor that stands for exactly `m`. */
  ghost predicate Stands(x: Platform, c: Codec, blobs: Blobs, id: nat, d: ShardDescriptor, m: Entries) {
    ShardOk(x, c, blobs, id, d) && Content(c, blobs, d) == m
  }

  /** Every descriptor is sound, and together they stand for exactly `m`. */
  ghost predicate Agrees(x: Platform, c: Codec, blobs: Blobs, shards: seq<ShardDescriptor>, m: Entries) {
    && |shards| == NUM_SHARDS && AllHashes(m)
    && forall id | 0 <= id < NUM_SHARDS :: Stands(x, c, blobs, id, shards[id], InShard(m, id))
  }

  lemma AgreesExtends(x: Platform, c: Codec, a: Blobs, b: Blobs, shards: seq<ShardDescriptor>, m: Entries)
    requires Agrees(x, c, a, shards, m) && Extends(a, b)
    ensures Agrees(x, c, b, shards, m)
  {
    forall id | 0 <= id < NUM_SHARDS ensures Stands(x, c, b, id, shards[id], InShard(m, id)) {
      ShardOkExtends(x, c, a, b, id, shards[id]);
    }
  }

  /** Descriptors that agree with their payloads pass every structural check. */
  lemma AgreesIsInOrder(x: Platform, c: Codec, blobs: Blobs, shards: seq<ShardDescriptor>, m: Entries)
    requires Agrees(x, c, blobs, shards, m)
    ensures InOrder(x, shards)
  {
    forall id | 0 <= id < NUM_SHARDS ensures shards[id].shardId == id && ValidDescriptor(x, shards[id]) {
      assert Stands(x, c, blobs, id, shards[id], InShard(m, id));
      OkIsValid(x, c, blobs, id, shards[id]);
    }
  }

  /** Looking a hash up shard by shard is looking it up in the map. */
  lemma LookupIsMapLookup(
    x: Platform, c: Codec, blobs: Blobs, shards: seq<ShardDescriptor>, m: Entries, h: StoreHash)
    requires Agrees(x, c, blobs, shards, m) && IsStoreHash(h)
    ensures ShardsOk(x, c, blobs, shards)
    ensures Lookup(c, blobs, shards, h) == if h in m then Some(m[h]) else None
  {
    assert Stands(x, c, blobs, ShardId(h), shards[ShardId(h)], InShard(m, ShardId(h)));
    forall id | 0 <= id < NUM_SHARDS ensures ShardOk(x, c, blobs, id, shards[id]) {
      assert Stands(x, c, blobs, id, shards[id], InShard(m, id));
    }
  }

  /** One root stands for one map. */
  lemma AgreesIsUnique(x: Platform, c: Codec, blobs: Blobs, shards: seq<ShardDescriptor>, m: Entries, n: Entries)
    requires Agrees(x, c, blobs, shards, m) && Agrees(x, c, blobs, shards, n)
    ensures m == n
  {
    forall h | h in m || h in n ensures h in m && h in n && m[h] == n[h] {
      LookupIsMapLookup(x, c, blobs, shards, m, h);
      LookupIsMapLookup(x, c, blobs, shards, n, h);
    }
  }

  // --- Rewriting shards ------------------------------------------------------------------------

  /** The bucket of a shard holds its part of the map; an empty part has no bucket. */
  ghost predicate Bucket(parts: map<nat, Entries>, m: Entries, id: nat)
    requires AllHashes(m)
  {
    (id in parts <==> InShard(m, id) != map[]) && (id in parts ==> parts[id] == InShard(m, id))
  }

  ghost predicate Partition(parts: map<nat, Entries>, m: Entries) {
    AllHashes(m) && forall id: nat :: Bucket(parts, m, id)
  }

  /** A map of one entry belongs to one shard. */
  lemma InShardOfOne(h: StoreHash, e: IndexEntry, id: nat)
    requires IsStoreHash(h)
    ensures AllHashes(map[h := e]) && InShard(map[h := e], id) == if id == ShardId(h) then map[h := e] else map[]
  {
  }

  lemma BucketIs(parts: map<nat, Entries>, m: Entries, id: nat)
    requires Partition(parts, m)
    ensures (if id in parts then parts[id] else map[]) == InShard(m, id) && (id in parts <==> InShard(m, id) != map[])
  {
    assert Bucket(parts, m, id);
  }

  lemma InShardElsewhere(m: Entries, h: StoreHash, e: IndexEntry, id: nat)
    requires AllHashes(m) && IsStoreHash(h) && id != ShardId(h)
    ensures AllHashes(m[h := e]) && InShard(m[h := e], id) == InShard(m, id)
  {
    assert m[h := e] == m + map[h := e];
    InShardOfOne(h, e, id);
    InShardUntouched(m, map[h := e], id);
  }

  lemma InShardHere(m: Entries, h: StoreHash, e: IndexEntry)
    requires AllHashes(m) && IsStoreHash(h)
    ensures AllHashes(m[h := e]) && InShard(m[h := e], ShardId(h)) == InShard(m, ShardId(h))[h := e]
  {
    var id := ShardId(h);
    assert m[h := e] == m + map[h := e];
    InShardOfOne(h, e, id);
    InShardOfMerge(m, map[h := e], id);
    assert InShard(m, id) + map[h := e] == InShard(m, id)[h := e];
  }

  lemma PartitionGrows(parts: map<nat, Entries>, m: Entries, h: StoreHash, e: IndexEntry, id: nat)
    requires Partition(parts, m) && IsStoreHash(h) && id == ShardId(h)
    ensures Partition(parts[id := (if id in parts then parts[id] else map[])[h := e]], m[h := e])
  {
    var parts' := parts[id := (if id in parts then parts[id] else map[])[h := e]];
    var m' := m[h := e];
    InShardHere(m, h, e);
    assert h in InShard(m, id)[h := e];
    assert Bucket(parts, m, id);
    forall i: nat ensures Bucket(parts', m', i) {
      if i != id {
        InShardElsewhere(m, h, e, i);
        assert Bucket(parts, m, i);
      }
    }
  }

  /** `partition_entries_by_shard`. */
  method PartitionByShard(entries: Entries) returns (parts: map<nat, Entries>)
    requires AllHashes(entries)
    ensures Partition(parts, entries)
  {
    parts := map[];
    var rest := entries.Keys;
    assert entries - rest == map[];
    while rest != {}
      invariant rest <= entries.Keys && Partition(parts, entries - rest)
      decreases rest
    {
      var h :| h in rest;
      var id := ShardId(h);
      PartitionGrows(parts, entries - rest, h, entries[h], id);
      TakeBack(entries, rest, h);
      parts := parts[id := (if id in parts then parts[id] else map[])[h := entries[h]]];
      rest := rest - {h};
    }
    assert entries - rest == entries;
  }

  lemma TakeBack(m: Entries, rest: set<StoreHash>, h: StoreHash)
    requires h in rest && h in m
    ensures m - (rest - {h}) == (m - rest)[h := m[h]]
  {
  }

  /** The descriptor of an uploaded payload stands for its entries. */
  lemma Described(x: Platform, c: Codec, blobs: Blobs, id: nat, d: ShardDescriptor, p: ShardPayload)
    requires d.shardId == id && d.prefix == ShardPrefix(id) && d.entryCount == |p.entries| > 0
    requires IsCanonicalDigest(d.blobDigest) && d.blobDigest in blobs
    requires c.decode(blobs[d.blobDigest]) == Some((p, d.uncompressedSize))
    requires |blobs[d.blobDigest]| == d.compressedSize > 0 && d.uncompressedSize > 0
    requires p.shardId == id && ValidPayload(x, p)
    requires KeysIn(id, p.entries) && Canonical(p.entries) && d.merkleHash == ShardHash(x, id, p.entries)
    ensures Stands(x, c, blobs, id, d, p.entries)
  {
  }

  method HashPayload(x: Platform, p: ShardPayload) returns (r: Result<string, CoreError>)
    requires ValidPayload(x, p)
    ensures r.Ok? ==> KeysIn(p.shardId, p.entries) && Canonical(p.entries) && r.value == ShardHash(x, p.shardId, p.entries)
  {
    PayloadKeys(x, p);
    r := ComputeShardHash(x, p.shardId, p.entries);
  }

  /** Uploads a payload and describes it. */
  method PublishShard(reg: Registry, id: nat, entries: Entries) returns (r: Result<ShardDescriptor, StoreError>)
    requires reg.Valid() && id < NUM_SHARDS && entries != map[]
    modifies reg
    ensures reg.Valid() && Extends(old(reg.blobs), reg.blobs) && (reg.collision.None? ==> old(reg.collision).None?)
    ensures r.Ok? && reg.collision.None? ==> Stands(reg.x, reg.codec, reg.blobs, id, r.value, entries)
  {
    var payload := NewPayload(id).(entries := entries);
    var pushed := reg.PushShard(payload);
    if pushed.Err? {
      return Err(pushed.error);
    }
    var hash := HashPayload(reg.x, payload);
    if hash.Err? {
      return Err(Rejected);
    }
    var (digest, compressed, uncompressed) := pushed.value;
    var d := ShardDescriptor(id, ShardPrefix(id), digest, compressed, uncompressed, |entries|, hash.value);
    if reg.collision.None? {
      Described(reg.x, reg.codec, reg.blobs, id, d, payload);
    }
    r := Ok(d);
  }

  lemma PayloadKeys(x: Platform, p: ShardPayload)
    requires ValidPayload(x, p)
    ensures KeysIn(p.shardId, p.entries) && AllHashes(p.entries) && forall h | h in p.entries :: |h| >= 2
  {
    forall h | h in p.entries ensures IsStoreHash(h) && ShardId(h) == p.shardId {
      PathHashIsStoreHash(p.entries[h].meta.storePath);
    }
  }

  /** One step of the promote loop: the shard's entries, overwritten by the incoming ones. */
  method CompactShard(
    reg: Registry, id: nat, d: ShardDescriptor, incoming: Entries, system: SystemArch, limits: Limits, ghost m: Entries)
    returns (r: Result<ShardDescriptor, StoreError>)
    requires reg.Valid() && id < NUM_SHARDS && incoming != map[]
    requires d.shardId == id && ValidDescriptor(reg.x, d)
    requires reg.collision.None? ==> Stands(reg.x, reg.codec, reg.blobs, id, d, m)
    modifies reg
    ensures reg.Valid() && Extends(old(reg.blobs), reg.blobs) && (reg.collision.None? ==> old(reg.collision).None?)
    ensures r.Ok? && reg.collision.None? ==> Stands(reg.x, reg.codec, reg.blobs, id, r.value, m + incoming)
    ensures r.Ok? && d.entryCount > 0 ==> Fetchable(reg.x, reg.codec, old(reg.blobs), d, system, limits)
  {
    var known := LoadShard(reg, d, system, limits);
    if known.Err? {
      return Err(known.error);
    }
    r := PublishShard(reg, id, known.value + incoming);
  }

  /** What one step of the promote loop puts in place of a descriptor: with nothing incoming, the same one. */
  method MergeDescriptor(
    reg: Registry, id: nat, d: ShardDescriptor, part: Entries, system: SystemArch, limits: Limits, ghost m: Entries)
    returns (r: Result<ShardDescriptor, StoreError>)
    requires reg.Valid() && id < NUM_SHARDS && d.shardId == id && ValidDescriptor(reg.x, d)
    requires reg.collision.None? ==> Stands(reg.x, reg.codec, reg.blobs, id, d, m)
    modifies reg
    ensures reg.Valid() && Extends(old(reg.blobs), reg.blobs) && (reg.collision.None? ==> old(reg.collision).None?)
    ensures r.Ok? && reg.collision.None? ==> Stands(reg.x, reg.codec, reg.blobs, id, r.value, m + part)
    ensures r.Ok? && part == map[] ==> r.value == d
  {
    if part == map[] {
      assert m + part == m;
      return Ok(d);
    }
    r := CompactShard(reg, id, d, part, system, limits, m);
  }

  /** One step of the promote loop, in place in the list of descriptors. */
  method MergeShard(
    reg: Registry, shards: seq<ShardDescriptor>, id: nat, parts: map<nat, Entries>, system: SystemArch, limits: Limits,
    ghost incoming: Entries, ghost m: Entries)
    returns (r: Result<seq<ShardDescriptor>, StoreError>)
    requires reg.Valid() && id < NUM_SHARDS == |shards| && Partition(parts, incoming) && AllHashes(m)
    requires shards[id].shardId == id && ValidDescriptor(reg.x, shards[id])
    requires reg.collision.None? ==> Partly(reg.x, reg.codec, reg.blobs, shards, id, m + incoming, m)
    modifies reg
    ensures reg.Valid() && Extends(old(reg.blobs), reg.blobs) && (reg.collision.None? ==> old(reg.collision).None?)
    ensures r.Ok? ==> |r.value| == NUM_SHARDS && forall j | 0 <= j < NUM_SHARDS && j != id :: r.value[j] == shards[j]
    ensures r.Ok? && InShard(incoming, id) == map[] ==> r.value[id] == shards[id]
    ensures r.Ok? && reg.collision.None? ==> Partly(reg.x, reg.codec, reg.blobs, r.value, id + 1, m + incoming, m)
  {
    BucketIs(parts, incoming, id);
    if reg.collision.None? { StandsLater(reg.x, reg.codec, reg.blobs, shards, id, m + incoming, m); }
    var part := if id in parts then parts[id] else map[];
    var d := MergeDescriptor(reg, id, shards[id], part, system, limits, InShard(m, id));
    if d.Err? {
      return Err(d.error);
    }
    if reg.collision.None? {
      InShardOfMerge(m, incoming, id);
      PartlySteps(reg.x, reg.codec, old(reg.blobs), reg.blobs, shards, id, m + incoming, m, d.value);
    }
    r := Ok(shards[id := d.value]);
  }

  /** Below `n` the shards with nothing incoming are as before, and above all are. */
  ghost predicate KeptApart(before: seq<ShardDescriptor>, shards: seq<ShardDescriptor>, incoming: Entries, n: nat)
    requires AllHashes(incoming)
  {
    && |before| == |shards| == NUM_SHARDS
    && forall j | 0 <= j < NUM_SHARDS && (n <= j || InShard(incoming, j) == map[]) :: shards[j] == before[j]
  }

  lemma KeptApartSteps(
    before: seq<ShardDescriptor>, shards: seq<ShardDescriptor>, next: seq<ShardDescriptor>, incoming: Entries, n: nat)
    requires AllHashes(incoming) && KeptApart(before, shards, incoming, n) && n < NUM_SHARDS == |next|
    requires forall j | 0 <= j < NUM_SHARDS && j != n :: next[j] == shards[j]
    requires InShard(incoming, n) == map[] ==> next[n] == shards[n]
    ensures KeptApart(before, next, incoming, n + 1)
  {
  }

  lemma InOrderAt(x: Platform, shards: seq<ShardDescriptor>, id: nat)
    requires InOrder(x, shards) && id < NUM_SHARDS
    ensures shards[id].shardId == id && ValidDescriptor(x, shards[id])
    ensures shards[id].entryCount != 0 ==> shards[id].blobDigest != ""
  {
  }

  lemma AgreesIsPartly(x: Platform, c: Codec, blobs: Blobs, shards: seq<ShardDescriptor>, now: Entries, was: Entries)
    requires Agrees(x, c, blobs, shards, was) && AllHashes(now)
    ensures Partly(x, c, blobs, shards, 0, now, was)
  {
  }

  lemma PartlyIsAgrees(x: Platform, c: Codec, blobs: Blobs, shards: seq<ShardDescriptor>, now: Entries, was: Entries)
    requires Partly(x, c, blobs, shards, NUM_SHARDS, now, was)
    ensures Agrees(x, c, blobs, shards, now)
  {
  }

  /** The promote loop over all shards; a shard with nothing incoming keeps its descriptor. */
  method MergeShards(
    reg: Registry, before: seq<ShardDescriptor>, incoming: Entries, system: SystemArch, limits: Limits, ghost m: Entries)
    returns (r: Result<seq<ShardDescriptor>, StoreError>)
    requires reg.Valid() && AllHashes(incoming) && AllHashes(m) && InOrder(reg.x, before)
    requires reg.collision.None? ==> Agrees(reg.x, reg.codec, reg.blobs, before, m)
    modifies reg
    ensures reg.Valid() && Extends(old(reg.blobs), reg.blobs) && (reg.collision.None? ==> old(reg.collision).None?)
    ensures r.Ok? ==> |r.value| == NUM_SHARDS
    ensures r.Ok? && reg.collision.None? ==> Agrees(reg.x, reg.codec, reg.blobs, r.value, m + incoming)
    ensures r.Ok? ==> forall id | 0 <= id < NUM_SHARDS && InShard(incoming, id) == map[] :: r.value[id] == before[id]
  {
    var parts := PartitionByShard(incoming);
    var shards := before;
    InShardOfMerge(m, incoming, 0);
    if reg.collision.None? { AgreesIsPartly(reg.x, reg.codec, reg.blobs, shards, m + incoming, m); }
    for id := 0 to NUM_SHARDS
      invariant reg.Valid() && Extends(old(reg.blobs), reg.blobs) && (reg.collision.None? ==> old(reg.collision).None?)
      invariant KeptApart(before, shards, incoming, id)
      invariant reg.collision.None? ==> Partly(reg.x, reg.codec, reg.blobs, shards, id, m + incoming, m)
    {
      InOrderAt(reg.x, before, id);
      var next := MergeShard(reg, shards, id, parts, system, limits, incoming, m);
      if next.Err? {
        return Err(next.error);
      }
      KeptApartSteps(before, shards, next.value, incoming, id);
      shards := next.value;
    }
    if reg.collision.None? { PartlyIsAgrees(reg.x, reg.codec, reg.blobs, shards, m + incoming, m); }
    r := Ok(shards);
  }

  /** The first `n` shards stand for the new map, the others still for the old one. */
  ghost predicate Partly(
    x: Platform, c: Codec, blobs: Blobs, shards: seq<ShardDescriptor>, n: nat, now: Entries, was: Entries)
  {
    && |shards| == NUM_SHARDS && n <= NUM_SHARDS && AllHashes(now) && AllHashes(was)
    && (forall j | 0 <= j < n :: Stands(x, c, blobs, j, shards[j], InShard(now, j)))
    && (forall j | n <= j < NUM_SHARDS :: Stands(x, c, blobs, j, shards[j], InShard(was, j)))
  }

  lemma StandsLater(
    x: Platform, c: Codec, blobs: Blobs, shards: seq<ShardDescriptor>, n: nat, now: Entries, was: Entries)
    requires Partly(x, c, blobs, shards, n, now, was) && n < NUM_SHARDS
    ensures Stands(x, c, blobs, n, shards[n], InShard(was, n))
  {
  }

  lemma PartlySteps(
    x: Platform, c: Codec, a: Blobs, b: Blobs, shards: seq<ShardDescriptor>, n: nat, now: Entries, was: Entries,
    d: ShardDescriptor)
    requires Partly(x, c, a, shards, n, now, was) && Extends(a, b) && n < NUM_SHARDS
    requires Stands(x, c, b, n, d, InShard(now, n))
    ensures Partly(x, c, b, shards[n := d], n + 1, now, was)
  {
    var next := shards[n := d];
    forall j | 0 <= j < NUM_SHARDS && j != n
      ensures Stands(x, c, b, j, next[j], if j < n then InShard(now, j) else InShard(was, j))
    {
      ShardOkExtends(x, c, a, b, j, shards[j]);
    }
  }

  // --- Taking entries out ----------------------------------------------------------------------

  lemma {:induction false} SameSizeSame(m: Entries, gone: set<StoreHash>)
    ensures |m - gone| == |m| <==> m.Keys !! gone
  {
    assert (m - gone).Keys == m.Keys - gone;
    assert |m - gone| == |m.Keys - gone|;
    assert m.Keys == (m.Keys - gone) + (m.Keys * gone);
    assert |m.Keys| == |m.Keys - gone| + |m.Keys * gone|;
    assert m.Keys !! gone <==> m.Keys * gone == {};
  }

  lemma LostIsExact(m: Entries, gone: set<StoreHash>, id: nat)
    requires AllHashes(m)
    ensures AllHashes(m - gone)
    ensures |InShard(m, id)| != |InShard(m - gone, id)| <==> exists h :: h in gone && h in m && ShardId(h) == id
    ensures |InShard(m, id)| == |InShard(m - gone, id)| ==> InShard(m - gone, id) == InShard(m, id)
  {
    var part := InShard(m, id);
    InShardOfRest(m, gone, id);
    SameSizeSame(part, gone);
    if part.Keys !! gone {
      assert part - gone == part;
    }
  }

  /** Comparing counts tells exactly whether a shard lost an entry. */
  lemma CountTestIsExact(
    x: Platform, c: Codec, blobs: Blobs, id: nat, d: ShardDescriptor, m: Entries, gone: set<StoreHash>)
    requires AllHashes(m) && Stands(x, c, blobs, id, d, InShard(m, id))
    ensures AllHashes(m - gone)
    ensures d.entryCount != |InShard(m - gone, id)| <==> exists h :: h in gone && h in m && ShardId(h) == id
    ensures d.entryCount == |InShard(m - gone, id)| ==> InShard(m - gone, id) == InShard(m, id)
  {
    StandingCount(x, c, blobs, id, d, InShard(m, id));
    LostIsExact(m, gone, id);
  }

  lemma EmptyStands(x: Platform, c: Codec, blobs: Blobs, id: nat)
    ensures Stands(x, c, blobs, id, EmptyDescriptor(x, id), map[])
  {
  }

  /** What one step of the purge loop puts in place of a descriptor. */
  method ReduceDescriptor(
    reg: Registry, id: nat, d: ShardDescriptor, kept: Entries, ghost m: Entries, ghost gone: set<StoreHash>)
    returns (r: Result<ShardDescriptor, StoreError>)
    requires reg.Valid() && id < NUM_SHARDS && AllHashes(m) && AllHashes(m - gone) && kept == InShard(m - gone, id)
    requires reg.collision.None? ==> Stands(reg.x, reg.codec, reg.blobs, id, d, InShard(m, id))
    modifies reg
    ensures reg.Valid() && Extends(old(reg.blobs), reg.blobs) && (reg.collision.None? ==> old(reg.collision).None?)
    ensures r.Ok? && reg.collision.None? ==> Stands(reg.x, reg.codec, reg.blobs, id, r.value, kept)
    ensures r.Ok? && reg.collision.None? && kept == InShard(m, id) ==> r.value == d
  {
    if reg.collision.None? {
      CountTestIsExact(reg.x, reg.codec, reg.blobs, id, d, m, gone);
      StandingCount(reg.x, reg.codec, reg.blobs, id, d, InShard(m, id));
    }
    if kept == map[] {
      var empty := MakeEmpty(reg.x, id);
      EmptyStands(reg.x, reg.codec, reg.blobs, id);
      r := Ok(empty.value);
    } else if d.entryCount != |kept| {
      r := PublishShard(reg, id, kept);
    } else {
      r := Ok(d);
    }
  }

  lemma StandingCount(x: Platform, c: Codec, blobs: Blobs, id: nat, d: ShardDescriptor, m: Entries)
    requires Stands(x, c, blobs, id, d, m)
    ensures d.entryCount == |m| && (m == map[] ==> d == EmptyDescriptor(x, id))
  {
  }

  /** One step of the purge loop: an empty descriptor, a smaller payload, or no change. */
  method ReduceShard(
    reg: Registry, shards: seq<ShardDescriptor>, id: nat, parts: map<nat, Entries>, ghost m: Entries,
    ghost gone: set<StoreHash>)
    returns (r: Result<seq<ShardDescriptor>, StoreError>)
    requires reg.Valid() && id < NUM_SHARDS == |shards| && AllHashes(m) && Partition(parts, m - gone)
    requires reg.collision.None? ==> Partly(reg.x, reg.codec, reg.blobs, shards, id, m - gone, m)
    modifies reg
    ensures reg.Valid() && Extends(old(reg.blobs), reg.blobs) && (reg.collision.None? ==> old(reg.collision).None?)
    ensures r.Ok? ==> |r.value| == NUM_SHARDS && forall j | 0 <= j < NUM_SHARDS && j != id :: r.value[j] == shards[j]
    ensures r.Ok? && reg.collision.None? ==> Partly(reg.x, reg.codec, reg.blobs, r.value, id + 1, m - gone, m)
    ensures r.Ok? && reg.collision.None? && InShard(m - gone, id) == InShard(m, id) ==> r.value[id] == shards[id]
  {
    BucketIs(parts, m - gone, id);
    if reg.collision.None? { StandsLater(reg.x, reg.codec, reg.blobs, shards, id, m - gone, m); }
    var kept := if id in parts then parts[id] else map[];
    var d := ReduceDescriptor(reg, id, shards[id], kept, m, gone);
    if d.Err? {
      return Err(d.error);
    }
    if reg.collision.None? {
      PartlySteps(reg.x, reg.codec, old(reg.blobs), reg.blobs, shards, id, m - gone, m, d.value);
    }
    r := Ok(shards[id := d.value]);
  }

  /** Below `n` the shards that lost nothing are as before, and above all are. */
  ghost predicate SparedApart(before: seq<ShardDescriptor>, shards: seq<ShardDescriptor>, kept: Entries, m: Entries, n: nat)
    requires AllHashes(kept) && AllHashes(m)
  {
    && |before| == |shards| == NUM_SHARDS
    && forall j | 0 <= j < NUM_SHARDS && (n <= j || InShard(kept, j) == InShard(m, j)) :: shards[j] == before[j]
  }

  lemma SparedApartSteps(
    before: seq<ShardDescriptor>, shards: seq<ShardDescriptor>, next: seq<ShardDescriptor>, kept: Entries, m: Entries, n: nat)
    requires AllHashes(kept) && AllHashes(m) && SparedApart(before, shards, kept, m, n) && n < NUM_SHARDS == |next|
    requires forall j | 0 <= j < NUM_SHARDS && j != n :: next[j] == shards[j]
    requires InShard(kept, n) == InShard(m, n) ==> next[n] == shards[n]
    ensures SparedApart(before, next, kept, m, n + 1)
  {
  }

  /** The purge loop over all shards. */
  method ReduceShards(reg: Registry, before: seq<ShardDescriptor>, kept: Entries, ghost m: Entries, ghost gone: set<StoreHash>)
    returns (r: Result<seq<ShardDescriptor>, StoreError>)
    requires reg.Valid() && |before| == NUM_SHARDS && AllHashes(m) && kept == m - gone
    requires reg.collision.None? ==> Agrees(reg.x, reg.codec, reg.blobs, before, m)
    modifies reg
    ensures reg.Valid() && Extends(old(reg.blobs), reg.blobs) && (reg.collision.None? ==> old(reg.collision).None?)
    ensures r.Ok? ==> |r.value| == NUM_SHARDS
    ensures r.Ok? && reg.collision.None? ==> Agrees(reg.x, reg.codec, reg.blobs, r.value, m - gone)
    ensures r.Ok? && reg.collision.None? ==>
              forall id | 0 <= id < NUM_SHARDS && InShard(kept, id) == InShard(m, id) :: r.value[id] == before[id]
  {
    InShardOfRest(m, gone, 0);
    var parts := PartitionByShard(kept);
    var shards := before;
    if reg.collision.None? { AgreesIsPartly(reg.x, reg.codec, reg.blobs, shards, kept, m); }
    for id := 0 to NUM_SHARDS
      invariant reg.Valid() && Extends(old(reg.blobs), reg.blobs) && (reg.collision.None? ==> old(reg.collision).None?)
      invariant |shards| == NUM_SHARDS && (reg.collision.None? ==> SparedApart(before, shards, kept, m, id))
      invariant reg.collision.None? ==> Partly(reg.x, reg.codec, reg.blobs, shards, id, kept, m)
    {
      var next := ReduceShard(reg, shards, id, parts, m, gone);
      if next.Err? {
        return Err(next.error);
      }
      if reg.collision.None? { SparedApartSteps(before, shards, next.value, kept, m, id); }
      shards := next.value;
    }
    if reg.collision.None? { PartlyIsAgrees(reg.x, reg.codec, reg.blobs, shards, kept, m); }
    r := Ok(shards);
  }

  // --- Reading a whole index -------------------------------------------------------------------

  /** The entries of the first `n` shards. */
  ghost function Below(m: Entries, n: nat): Entries
    requires AllHashes(m)
  {
    map h | h in m && ShardId(h) < n :: m[h]
  }

  lemma BelowSteps(m: Entries, n: nat)
    requires AllHashes(m)
    ensures Below(m, n + 1) == Below(m, n) + InShard(m, n)
  {
  }

  lemma BelowAll(m: Entries)
    requires AllHashes(m)
    ensures Below(m, NUM_SHARDS) == m && Below(m, 0) == map[]
  {
  }

  lemma ContentIs(c: Codec, blobs: Blobs, d: ShardDescriptor, p: ShardPayload, size: nat)
    requires d.entryCount != 0 && d.blobDigest in blobs && c.decode(blobs[d.blobDigest]) == Some((p, size))
    ensures Content(c, blobs, d) == p.entries
  {
  }

  lemma LoadStep(
    x: Platform, c: Codec, blobs: Blobs, id: nat, d: ShardDescriptor, m: Entries, entries: Entries, part: Entries)
    requires AllHashes(m) && entries == Below(m, id) && Stands(x, c, blobs, id, d, InShard(m, id))
    requires part == Content(c, blobs, d)
    ensures entries + part == Below(m, id + 1)
  {
    BelowSteps(m, id);
  }

  method AddShard(
    reg: Registry, id: nat, d: ShardDescriptor, entries: Entries, system: SystemArch, limits: Limits, ghost m: Entries)
    returns (r: Result<Entries, StoreError>)
    requires reg.Valid() && AllHashes(entries) && AllHashes(m) && (d.entryCount != 0 ==> d.blobDigest != "")
    requires reg.collision.None? ==> entries == Below(m, id) && Stands(reg.x, reg.codec, reg.blobs, id, d, InShard(m, id))
    ensures r.Ok? ==> AllHashes(r.value)
    ensures r.Ok? && d.entryCount != 0 ==> Fetchable(reg.x, reg.codec, reg.blobs, d, system, limits)
    ensures r.Ok? && reg.collision.None? ==> r.value == Below(m, id + 1)
  {
    var part := LoadShard(reg, d, system, limits);
    if part.Err? {
      return Err(part.error);
    }
    if reg.collision.None? {
      LoadStep(reg.x, reg.codec, reg.blobs, id, d, m, entries, part.value);
    }
    InShardOfMerge(entries, part.value, id);
    r := Ok(entries + part.value);
  }

  /** Each of the first `n` shards that is not empty can be read. */
  ghost predicate AllFetchable(
    x: Platform, c: Codec, blobs: Blobs, shards: seq<ShardDescriptor>, n: nat, system: SystemArch, limits: Limits)
  {
    forall id | 0 <= id < n && id < |shards| && shards[id].entryCount != 0 :: Fetchable(x, c, blobs, shards[id], system, limits)
  }

  lemma FetchableNext(
    x: Platform, c: Codec, blobs: Blobs, shards: seq<ShardDescriptor>, n: nat, system: SystemArch, limits: Limits)
    requires AllFetchable(x, c, blobs, shards, n, system, limits) && n < |shards|
    requires shards[n].entryCount != 0 ==> Fetchable(x, c, blobs, shards[n], system, limits)
    ensures AllFetchable(x, c, blobs, shards, n + 1, system, limits)
  {
    forall id | 0 <= id < n + 1 && id < |shards| && shards[id].entryCount != 0
      ensures Fetchable(x, c, blobs, shards[id], system, limits)
    {
      assert id == n || id < n;
    }
  }

  lemma StandsHere(x: Platform, c: Codec, blobs: Blobs, shards: seq<ShardDescriptor>, m: Entries, id: nat)
    requires Agrees(x, c, blobs, shards, m) && id < NUM_SHARDS
    ensures Stands(x, c, blobs, id, shards[id], InShard(m, id))
  {
  }

  /** One step of the reading loop. */
  method LoadNext(
    reg: Registry, shards: seq<ShardDescriptor>, id: nat, entries: Entries, system: SystemArch, limits: Limits, ghost m: Entries)
    returns (r: Result<Entries, StoreError>)
    requires reg.Valid() && InOrder(reg.x, shards) && id < NUM_SHARDS && AllHashes(m) && AllHashes(entries)
    requires reg.collision.None? ==> Agrees(reg.x, reg.codec, reg.blobs, shards, m) && entries == Below(m, id)
    requires AllFetchable(reg.x, reg.codec, reg.blobs, shards, id, system, limits)
    ensures r.Ok? ==> AllHashes(r.value) && AllFetchable(reg.x, reg.codec, reg.blobs, shards, id + 1, system, limits)
    ensures r.Ok? && reg.collision.None? ==> r.value == Below(m, id + 1)
  {
    InOrderAt(reg.x, shards, id);
    if reg.collision.None? { StandsHere(reg.x, reg.codec, reg.blobs, shards, m, id); }
    r := AddShard(reg, id, shards[id], entries, system, limits, m);
    if r.Ok? { FetchableNext(reg.x, reg.codec, reg.blobs, shards, id, system, limits); }
  }

  /** Reads every shard that is not empty into one map. */
  method LoadEntries(reg: Registry, shards: seq<ShardDescriptor>, system: SystemArch, limits: Limits, ghost m: Entries)
    returns (r: Result<Entries, StoreError>)
    requires reg.Valid() && InOrder(reg.x, shards) && AllHashes(m)
    requires reg.collision.None? ==> Agrees(reg.x, reg.codec, reg.blobs, shards, m)
    ensures r.Ok? ==> AllHashes(r.value)
    ensures r.Ok? ==> AllFetchable(reg.x, reg.codec, reg.blobs, shards, NUM_SHARDS, system, limits)
    ensures r.Ok? && reg.collision.None? ==> r.value == m
  {
    BelowAll(m);
    var entries: Entries := map[];
    for id := 0 to NUM_SHARDS
      invariant AllHashes(entries) && AllFetchable(reg.x, reg.codec, reg.blobs, shards, id, system, limits)
      invariant reg.collision.None? ==> entries == Below(m, id)
    {
      var next := LoadNext(reg, shards, id, entries, system, limits, m);
      if next.Err? {
        return Err(next.error);
      }
      entries := next.value;
    }
    r := Ok(entries);
  }

  method LoadShard(reg: Registry, d: ShardDescriptor, system: SystemArch, limits: Limits)
    returns (r: Result<Entries, StoreError>)
    requires reg.Valid()
    ensures r.Ok? ==> AllHashes(r.value)
    ensures r.Ok? && (d.entryCount != 0 ==> d.blobDigest != "") ==> r.value == Content(reg.codec, reg.blobs, d)
    ensures r.Ok? && d.entryCount != 0 && d.blobDigest != "" ==> Fetchable(reg.x, reg.codec, reg.blobs, d, system, limits)
  {
    if d.entryCount == 0 || d.blobDigest == "" {
      return Ok(map[]);
    }
    var payload := reg.GetShard(d, system, limits);
    if payload.Err? {
      return Err(payload.error);
    }
    PayloadKeys(reg.x, payload.value);
    ContentIs(reg.codec, reg.blobs, d, payload.value, d.uncompressedSize);
    r := Ok(payload.value.entries);
  }
}
