/**
 The root of an architecture's index: one descriptor per shard, a global Merkle root over
 exactly 1024 of them in any order, and the comparison of two roots shard by shard.
 */
module Root {
  import opened Basics
  import opened Text
  import opened Types
  import opened Encoding
  import opened Merkle

  datatype ShardDescriptor = ShardDescriptor(
    shardId: nat, prefix: string, blobDigest: string, compressedSize: nat, uncompressedSize: nat,
    entryCount: nat, merkleHash: string)

  predicate IsEmptyShard(d: ShardDescriptor) {
    d.entryCount == 0
  }

  ghost function EmptyShardHash(x: Platform, id: nat): string
  {
    ShardHash(x, id, map[])
  }

  ghost function EmptyDescriptor(x: Platform, id: nat): ShardDescriptor
  {
    ShardDescriptor(id, ShardPrefix(id), "", 0, 0, 0, EmptyShardHash(x, id))
  }

  /** `ShardDescriptor::validate_structure`. */
  ghost predicate ValidDescriptor(x: Platform, d: ShardDescriptor) {
    && d.shardId < NUM_SHARDS && d.prefix == ShardPrefix(d.shardId)
    && if IsEmptyShard(d)
       then d == EmptyDescriptor(x, d.shardId)
       else && IsCanonicalDigest(d.blobDigest) && IsCanonicalDigest(d.merkleHash)
            && d.compressedSize != 0 && d.uncompressedSize != 0
  }

  method MakeEmpty(x: Platform, id: nat) returns (r: Result<ShardDescriptor, CoreError>)
    ensures r.Ok? <==> id < NUM_SHARDS
    ensures r.Ok? ==> r.value == EmptyDescriptor(x, id)
  {
    var hash := ComputeShardHash(x, id, map[]);
    if hash.Err? {
      return Err(hash.error);
    }
    r := Ok(ShardDescriptor(id, ShardPrefix(id), "", 0, 0, 0, hash.value));
  }

  method ValidateDescriptor(x: Platform, d: ShardDescriptor) returns (ok: bool)
    ensures ok <==> ValidDescriptor(x, d)
  {
    if d.shardId >= NUM_SHARDS || d.prefix != ShardPrefix(d.shardId) {
      return false;
    }
    if IsEmptyShard(d) {
      var hash := ComputeShardHash(x, d.shardId, map[]);
      return d.blobDigest == "" && d.compressedSize == 0 && d.uncompressedSize == 0 && d.merkleHash == hash.value;
    }
    ok := && IsCanonicalDigest(d.blobDigest) && d.compressedSize != 0 && d.uncompressedSize != 0
          && IsCanonicalDigest(d.merkleHash);
  }

  // --- A complete set of descriptors -------------------------------------------------------------

  ghost predicate DistinctIds(s: seq<ShardDescriptor>) {
    forall i, j | 0 <= i < j < |s| :: s[i].shardId != s[j].shardId
  }

  ghost predicate HasId(s: seq<ShardDescriptor>, id: nat) {
    exists i | 0 <= i < |s| :: s[i].shardId == id
  }

  /** Exactly one valid descriptor for every shard, in any order. */
  ghost predicate OnePerShard(x: Platform, s: seq<ShardDescriptor>) {
    && (forall i | 0 <= i < |s| :: ValidDescriptor(x, s[i]))
    && DistinctIds(s) && forall id | 0 <= id < NUM_SHARDS :: HasId(s, id)
  }

  /** The same descriptors by ascending shard. */
  ghost predicate OrderedAs(s: seq<ShardDescriptor>, o: seq<ShardDescriptor>) {
    |o| == NUM_SHARDS && forall id | 0 <= id < NUM_SHARDS :: o[id].shardId == id && o[id] in s
  }

  lemma OrderIsUnique(s: seq<ShardDescriptor>, o: seq<ShardDescriptor>, o': seq<ShardDescriptor>)
    requires DistinctIds(s) && OrderedAs(s, o) && OrderedAs(s, o')
    ensures o == o'
  {
    forall id | 0 <= id < NUM_SHARDS ensures o[id] == o'[id] {
      var i :| 0 <= i < |s| && s[i] == o[id];
      var j :| 0 <= j < |s| && s[j] == o'[id];
      assert i == j;
    }
  }

  lemma {:induction false} BoundedSize(ids: set<int>, n: nat)
    requires forall v | v in ids :: 0 <= v < n
    ensures |ids| <= n
  {
    if n == 0 {
      assert forall v :: v !in ids;
    } else {
      BoundedSize(ids - {n - 1}, n - 1);
    }
  }

  lemma {:induction false} IdSetSize(s: seq<ShardDescriptor>)
    requires DistinctIds(s)
    ensures |Ids(s)| == |s|
  {
    if s != [] {
      var t := s[..|s| - 1];
      IdSetSize(t);
      assert Ids(s) == Ids(t) + {s[|s| - 1].shardId};
    } else {
      assert Ids(s) == {};
    }
  }

  ghost function Ids(s: seq<ShardDescriptor>): set<int> {
    set i | 0 <= i < |s| :: s[i].shardId
  }

  /** 1024 different ids below 1024 leave none out. */
  lemma Pigeonhole(s: seq<ShardDescriptor>, id: nat)
    requires |s| == NUM_SHARDS && DistinctIds(s) && (forall i | 0 <= i < |s| :: s[i].shardId < NUM_SHARDS)
    requires id < NUM_SHARDS
    ensures HasId(s, id)
  {
    IdSetSize(s);
    if id !in Ids(s) {
      BoundedSize(Ids(s) + {id}, NUM_SHARDS);
    }
  }

  lemma {:induction false} AllBelowSize(ids: set<int>, n: nat)
    requires forall v | 0 <= v < n :: v in ids
    ensures n <= |ids|
  {
    if n > 0 {
      AllBelowSize(ids - {n - 1}, n - 1);
    }
  }

  /** A complete set has 1024 descriptors. */
  lemma CompleteSize(x: Platform, s: seq<ShardDescriptor>)
    requires OnePerShard(x, s)
    ensures |s| == NUM_SHARDS
  {
    IdSetSize(s);
    forall v | 0 <= v < NUM_SHARDS ensures v in Ids(s) {
      assert HasId(s, v);
    }
    AllBelowSize(Ids(s), NUM_SHARDS);
    BoundedSize(Ids(s), NUM_SHARDS);
  }

  /** The slots hold the descriptors seen so far, each under its id. */
  ghost predicate SlotsHold(slots: seq<Option<ShardDescriptor>>, seen: seq<ShardDescriptor>) {
    && |slots| == NUM_SHARDS
    && forall id | 0 <= id < NUM_SHARDS ::
         && (slots[id].Some? <==> HasId(seen, id))
         && (slots[id].Some? ==> slots[id].value.shardId == id && slots[id].value in seen)
  }

  lemma SlotsGrow(slots: seq<Option<ShardDescriptor>>, seen: seq<ShardDescriptor>, d: ShardDescriptor)
    requires SlotsHold(slots, seen) && DistinctIds(seen) && d.shardId < NUM_SHARDS && slots[d.shardId].None?
    ensures SlotsHold(slots[d.shardId := Some(d)], seen + [d]) && DistinctIds(seen + [d])
  {
    var now := seen + [d];
    forall id | 0 <= id < NUM_SHARDS ensures HasId(now, id) <==> id == d.shardId || HasId(seen, id) {
      if HasId(seen, id) {
        var i :| 0 <= i < |seen| && seen[i].shardId == id;
        assert now[i].shardId == id;
      }
      assert now[|seen|].shardId == d.shardId;
    }
  }

  /** Puts every descriptor into the slot of its id, unless one is invalid or an id repeats. */
  method FillSlots(x: Platform, s: seq<ShardDescriptor>, slots: array<Option<ShardDescriptor>>)
    returns (r: Result<(), CoreError>)
    requires slots.Length == NUM_SHARDS && forall i | 0 <= i < NUM_SHARDS :: slots[i].None?
    modifies slots
    ensures r.Ok? <==> (forall i | 0 <= i < |s| :: ValidDescriptor(x, s[i])) && DistinctIds(s)
    ensures r.Ok? ==> SlotsHold(slots[..], s)
    ensures r != Err(MissingShard)
  {
    for k := 0 to |s|
      invariant SlotsHold(slots[..], s[..k]) && DistinctIds(s[..k])
      invariant forall i | 0 <= i < k :: ValidDescriptor(x, s[i])
    {
      var d := s[k];
      if d.shardId >= NUM_SHARDS {
        return Err(InvalidMerkle);
      }
      if slots[d.shardId].Some? {
        assert slots[..][d.shardId].Some?;
        DuplicateId(s, k);
        return Err(InvalidShardSet);
      }
      var ok := ValidateDescriptor(x, d);
      if !ok {
        return Err(InvalidIndex);
      }
      SlotsGrow(slots[..], s[..k], d);
      TakeNext(s, k);
      ghost var before := slots[..];
      slots[d.shardId] := Some(d);
      assert slots[..] == before[d.shardId := Some(d)];
    }
    TakeAll(s);
    r := Ok(());
  }

  /** `index_shard_descriptors`: the error for a missing shard is never reached. */
  method IndexDescriptors(x: Platform, s: seq<ShardDescriptor>) returns (r: Result<seq<ShardDescriptor>, CoreError>)
    ensures r.Ok? <==> OnePerShard(x, s)
    ensures r.Ok? ==> OrderedAs(s, r.value)
    ensures r != Err(MissingShard)
  {
    if |s| != NUM_SHARDS {
      if OnePerShard(x, s) { CompleteSize(x, s); }
      return Err(InvalidShardSet);
    }
    var slots := new Option<ShardDescriptor>[NUM_SHARDS](_ => None);
    var filled := FillSlots(x, s, slots);
    if filled.Err? {
      return Err(filled.error);
    }
    forall id | 0 <= id < NUM_SHARDS ensures HasId(s, id) { Pigeonhole(s, id); }
    var ordered: seq<ShardDescriptor> := [];
    for id := 0 to NUM_SHARDS
      invariant |ordered| == id && forall j | 0 <= j < id :: ordered[j].shardId == j && ordered[j] in s
    {
      var slot := slots[..][id];
      if slot.None? {
        return Err(MissingShard);
      }
      ordered := ordered + [slot.value];
    }
    r := Ok(ordered);
  }

  lemma DuplicateId(s: seq<ShardDescriptor>, k: nat)
    requires k < |s| && HasId(s[..k], s[k].shardId)
    ensures !DistinctIds(s)
  {
    var i :| 0 <= i < k && s[..k][i].shardId == s[k].shardId;
    assert s[i].shardId == s[k].shardId;
  }

  // --- The global root ---------------------------------------------------------------------------

  function BlobText(d: ShardDescriptor): Option<Digest>
    requires d.blobDigest == "" || IsCanonicalDigest(d.blobDigest)
  {
    if d.blobDigest == "" then None else Some(DigestBytes(d.blobDigest))
  }

  /** The digests of a descriptor are spelled canonically. */
  predicate WellSpelled(d: ShardDescriptor) {
    (d.blobDigest == "" || IsCanonicalDigest(d.blobDigest)) && IsCanonicalDigest(d.merkleHash)
  }

  function DescriptorInput(domain: string, d: ShardDescriptor): seq<byte>
    requires WellSpelled(d)
  {
    Str(domain) + (U16(d.shardId) + (Str(d.prefix) + (OptDigest(BlobText(d)) + (U64(d.compressedSize) +
    (U64(d.uncompressedSize) + (U64(d.entryCount) + DigestBytes(d.merkleHash)))))))
  }

  lemma ValidIsWellSpelled(x: Platform, d: ShardDescriptor)
    requires ValidDescriptor(x, d)
    ensures WellSpelled(d)
  {
  }

  ghost function DescriptorLeaves(x: Platform, o: seq<ShardDescriptor>): (r: seq<Digest>)
    requires forall i | 0 <= i < |o| :: WellSpelled(o[i])
    ensures |r| == |o|
  {
    seq<Digest>(|o|, i requires 0 <= i < |o| => x.sha(DescriptorInput(x.tags.descriptorLeaf, o[i])))
  }

  function RootInput(domain: string, count: nat, tree: Digest): seq<byte> {
    Str(domain) + (U64(count) + tree)
  }

  /** The global root over descriptors by ascending shard. */
  ghost function RootHash(x: Platform, o: seq<ShardDescriptor>): string
    requires forall i | 0 <= i < |o| :: WellSpelled(o[i])
  {
    var tree := LayeredRoot(x, x.tags.rootNode, DescriptorLeaves(x, o));
    FormatDigest(x.sha(RootInput(x.tags.rootRoot, NUM_SHARDS, tree)))
  }

  method DescriptorLeafHash(x: Platform, domain: string, d: ShardDescriptor) returns (r: Result<Digest, CoreError>)
    ensures r.Ok? <==> WellSpelled(d)
    ensures r.Ok? ==> r.value == x.sha(DescriptorInput(domain, d))
    ensures r != Err(MissingShard)
  {
    CanonicalDigestParses(d.blobDigest);
    CanonicalDigestParses(d.merkleHash);
    if d.blobDigest != "" && ParseNarDigest(d.blobDigest) != Ok(d.blobDigest) {
      return Err(InvalidCanonicalDigest);
    }
    if ParseNarDigest(d.merkleHash) != Ok(d.merkleHash) {
      return Err(InvalidCanonicalDigest);
    }
    var e := new CanonicalEncoder(domain);
    PutDescriptor(e, d);
    r := Ok(x.sha(e.bytes));
  }

  method PutDescriptor(e: CanonicalEncoder, d: ShardDescriptor)
    requires WellSpelled(d)
    modifies e
    ensures forall domain | old(e.bytes) == Str(domain) :: e.bytes == DescriptorInput(domain, d)
  {
    ghost var b0 := e.bytes;
    e.PutU16(d.shardId);
    ghost var b1 := e.bytes;
    e.PutBytes(Utf8(d.prefix));
    ghost var b2 := e.bytes;
    e.PutOptDigest(BlobText(d));
    ghost var b3 := e.bytes;
    e.PutU64(d.compressedSize);
    ghost var b4 := e.bytes;
    e.PutU64(d.uncompressedSize);
    ghost var b5 := e.bytes;
    e.PutU64(d.entryCount);
    e.PutRaw(DigestBytes(d.merkleHash));
    ghost var t6 := DigestBytes(d.merkleHash);
    ghost var t5 := U64(d.entryCount) + t6;
    ghost var t4 := U64(d.uncompressedSize) + t5;
    ghost var t3 := U64(d.compressedSize) + t4;
    ghost var t2 := OptDigest(BlobText(d)) + t3;
    ghost var t1 := Str(d.prefix) + t2;
    Assoc(b5, U64(d.entryCount), t6);
    Assoc(b4, U64(d.uncompressedSize), t5);
    Assoc(b3, U64(d.compressedSize), t4);
    Assoc(b2, OptDigest(BlobText(d)), t3);
    Assoc(b1, Str(d.prefix), t2);
    Assoc(b0, U16(d.shardId), t1);
  }

  ghost predicate AllSpelled(o: seq<ShardDescriptor>) {
    forall i | 0 <= i < |o| :: WellSpelled(o[i])
  }

  lemma SpelledNext(x: Platform, o: seq<ShardDescriptor>, d: ShardDescriptor)
    requires AllSpelled(o) && WellSpelled(d)
    ensures AllSpelled(o + [d])
    ensures DescriptorLeaves(x, o + [d]) == DescriptorLeaves(x, o) + [x.sha(DescriptorInput(x.tags.descriptorLeaf, d))]
  {
    var next := o + [d];
    assert forall i | 0 <= i < |o| :: next[i] == o[i];
    assert next[|o|] == d;
  }

  method HashDescriptors(x: Platform, o: seq<ShardDescriptor>) returns (r: Result<seq<Digest>, CoreError>)
    ensures r.Ok? <==> forall i | 0 <= i < |o| :: WellSpelled(o[i])
    ensures r.Ok? ==> r.value == DescriptorLeaves(x, o)
    ensures r != Err(MissingShard)
  {
    var leaves: seq<Digest> := [];
    for i := 0 to |o|
      invariant AllSpelled(o[..i]) && leaves == DescriptorLeaves(x, o[..i])
    {
      var leaf := DescriptorLeafHash(x, x.tags.descriptorLeaf, o[i]);
      if leaf.Err? {
        return Err(leaf.error);
      }
      SpelledNext(x, o[..i], o[i]);
      TakeNext(o, i);
      leaves := leaves + [leaf.value];
    }
    TakeAll(o);
    r := Ok(leaves);
  }

  lemma OrderedIsWellSpelled(x: Platform, s: seq<ShardDescriptor>, o: seq<ShardDescriptor>)
    requires OnePerShard(x, s) && OrderedAs(s, o)
    ensures forall i | 0 <= i < |o| :: ValidDescriptor(x, o[i]) && WellSpelled(o[i])
  {
    forall i | 0 <= i < |o| ensures ValidDescriptor(x, o[i]) && WellSpelled(o[i]) {
      assert o[i] in s;
      ValidIsWellSpelled(x, o[i]);
    }
  }

  method HashRoot(x: Platform, domain: string, count: nat, tree: Digest) returns (d: Digest)
    ensures d == x.sha(RootInput(domain, count, tree))
  {
    var e := new CanonicalEncoder(domain);
    e.PutU64(count);
    e.PutRaw(tree);
    Assoc(Str(domain), U64(count), tree);
    d := x.sha(e.bytes);
  }

  /** `compute_merkle_root`: accepts exactly the complete sets and does not see their order. */
  method ComputeMerkleRoot(x: Platform, s: seq<ShardDescriptor>) returns (r: Result<string, CoreError>)
    ensures r.Ok? <==> OnePerShard(x, s)
    ensures r.Ok? ==> forall o | OrderedAs(s, o) ::
              (forall i | 0 <= i < |o| :: WellSpelled(o[i])) && r.value == RootHash(x, o)
    ensures r != Err(MissingShard)
  {
    var indexed := IndexDescriptors(x, s);
    if indexed.Err? {
      return Err(indexed.error);
    }
    OrderedIsWellSpelled(x, s, indexed.value);
    var leaves := HashDescriptors(x, indexed.value);
    var tree := ComputeLayeredRoot(x, x.tags.rootNode, leaves.value);
    var root := HashRoot(x, x.tags.rootRoot, NUM_SHARDS, tree);
    forall o | OrderedAs(s, o) ensures o == indexed.value { OrderIsUnique(s, o, indexed.value); }
    r := Ok(FormatDigest(root));
  }

  /** `diff_shard_descriptors`: the ids whose descriptors differ, in ascending order. */
  method DiffDescriptors(x: Platform, a: seq<ShardDescriptor>, b: seq<ShardDescriptor>)
    returns (r: Result<seq<nat>, CoreError>)
    ensures r.Ok? <==> OnePerShard(x, a) && OnePerShard(x, b)
    ensures r.Ok? ==> forall o, p | OrderedAs(a, o) && OrderedAs(b, p) :: IsDiff(o, p, r.value)
  {
    var old' := IndexDescriptors(x, a);
    if old'.Err? {
      return Err(old'.error);
    }
    var new' := IndexDescriptors(x, b);
    if new'.Err? {
      return Err(new'.error);
    }
    var ids := DiffOrdered(old'.value, new'.value);
    forall o, p | OrderedAs(a, o) && OrderedAs(b, p) ensures IsDiff(o, p, ids) {
      OrderIsUnique(a, o, old'.value);
      OrderIsUnique(b, p, new'.value);
    }
    r := Ok(ids);
  }

  /** Strictly ascending, and exactly the shards whose descriptors differ. */
  ghost predicate IsDiff(o: seq<ShardDescriptor>, p: seq<ShardDescriptor>, ids: seq<nat>) {
    && |o| == |p| && (forall i, j | 0 <= i < j < |ids| :: ids[i] < ids[j])
    && forall id: nat :: id in ids <==> id < |o| && o[id] != p[id]
  }

  method DiffOrdered(o: seq<ShardDescriptor>, p: seq<ShardDescriptor>) returns (ids: seq<nat>)
    requires |o| == |p| && forall i | 0 <= i < |o| :: o[i].shardId == p[i].shardId == i
    ensures IsDiff(o, p, ids)
  {
    ids := [];
    for i := 0 to |o|
      invariant (forall j, k | 0 <= j < k < |ids| :: ids[j] < ids[k]) && forall j | 0 <= j < |ids| :: ids[j] < i
      invariant forall id: nat :: id in ids <==> id < i && o[id] != p[id]
    {
      if o[i] != p[i] {
        ids := ids + [p[i].shardId];
      }
    }
  }
}
