/** What an architecture's Merkle root says about the whole map it was published for. */
module IndexBinding {
  import opened Types
  import opened Merkle
  import opened MerkleBinding
  import opened Root
  import opened RootBinding
  import opened Store
  import opened Index

  /** Two different strings hashed for the two versions of a shard have one digest. */
  ghost predicate ShardsCollide(x: Platform, id: nat, a: Entries, b: Entries) {
    Canonical(a) && Canonical(b) && Collide(x, ShardInputs(x, id, a), ShardInputs(x, id, b))
  }

  lemma StandsHash(x: Platform, c: Codec, blobs: Blobs, id: nat, d: ShardDescriptor, m: Entries)
    requires Stands(x, c, blobs, id, d, m)
    ensures Canonical(m) && d.merkleHash == ShardHash(x, id, m)
  {
  }

  /** One descriptor, in whatever stores, stands for one part of a map, short of a collision. */
  lemma DescriptorBinds(
    x: Platform, c: Codec, blobs: Blobs, m: Entries, c': Codec, blobs': Blobs, n: Entries, id: nat, d: ShardDescriptor)
    requires Stands(x, c, blobs, id, d, m) && Stands(x, c', blobs', id, d, n) && id < NUM_SHARDS
    requires SizedShard(m) && SizedShard(n)
    ensures m == n || ShardsCollide(x, id, m, n)
  {
    StandsHash(x, c, blobs, id, d, m);
    StandsHash(x, c', blobs', id, d, n);
    ShardHashBinds(x, id, m, id, n);
  }

  /** Lengths and numbers fit in 64 bits in every shard. */
  ghost predicate SizedMap(m: Entries) {
    AllHashes(m) && forall id | 0 <= id < NUM_SHARDS :: SizedShard(InShard(m, id))
  }

  lemma ShardDecides(m: Entries, h: string)
    requires AllHashes(m) && IsStoreHash(h)
    ensures h in m <==> h in InShard(m, ShardId(h))
    ensures h in m ==> InShard(m, ShardId(h))[h] == m[h]
  {
  }

  lemma SameShardsSameMap(m: Entries, n: Entries)
    requires AllHashes(m) && AllHashes(n) && forall id | 0 <= id < NUM_SHARDS :: InShard(m, id) == InShard(n, id)
    ensures m == n
  {
    forall h | h in m || h in n ensures h in m && h in n && m[h] == n[h] {
      ShardDecides(m, h);
      ShardDecides(n, h);
    }
  }

  /**
   Two indexes with one Merkle root, in whatever stores, stand for one map; otherwise two
   different strings hashed for the roots, or for some shard of both, have one digest.
   */
  lemma RootBindsMap(
    x: Platform, c: Codec, blobs: Blobs, o: seq<ShardDescriptor>, m: Entries, c': Codec, blobs': Blobs,
    p: seq<ShardDescriptor>, n: Entries)
    requires Agrees(x, c, blobs, o, m) && Agrees(x, c', blobs', p, n) && SizedMap(m) && SizedMap(n)
    requires ValidOrder(x, o) && ValidOrder(x, p) && RootHash(x, o) == RootHash(x, p)
    ensures || m == n || Collide(x, RootInputs(x, o), RootInputs(x, p))
            || exists id | 0 <= id < NUM_SHARDS :: ShardsCollide(x, id, InShard(m, id), InShard(n, id))
  {
    RootHashBinds(x, o, p);
    if o == p {
      forall id | 0 <= id < NUM_SHARDS && !ShardsCollide(x, id, InShard(m, id), InShard(n, id))
        ensures InShard(m, id) == InShard(n, id)
      {
        StandsHere(x, c, blobs, o, m, id);
        StandsHere(x, c', blobs', p, n, id);
        DescriptorBinds(x, c, blobs, InShard(m, id), c', blobs', InShard(n, id), id, o[id]);
      }
      if forall id | 0 <= id < NUM_SHARDS :: !ShardsCollide(x, id, InShard(m, id), InShard(n, id)) {
        SameShardsSameMap(m, n);
      }
    }
  }
}
