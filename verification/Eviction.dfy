/** What a refresh drops from the memory cache. */
module Eviction {
  import opened Basics
  import opened Types
  import opened Merkle
  import opened MerkleBinding
  import opened Root
  import opened RootBinding
  import opened Index
  import opened Coherence
  import opened Worker

  /** Eviction removes exactly the shards the two roots describe differently, short of a collision. */
  lemma EvictionFollowsDiff(
    x: Platform, shards: map<nat, CachedShard>, was: ArchRoot, root: ArchRoot, ids: seq<nat>)
    requires ValidOrder(x, was.shards) && ValidOrder(x, root.shards) && IsDiff(was.shards, root.shards, ids)
    requires was.merkleRoot == RootHash(x, was.shards) && root.merkleRoot == RootHash(x, root.shards)
    requires forall id | id in shards :: id < NUM_SHARDS
    ensures || EvictStale(shards, Some(was), root) == shards - (set id | id in ids)
            || Collide(x, RootInputs(x, was.shards), RootInputs(x, root.shards))
  {
    if was.merkleRoot == root.merkleRoot {
      EqualRootsHaveNoDiff(x, was.shards, root.shards, ids);
      if ids == [] { assert shards - (set id | id in ids) == shards; }
    } else {
      DropChanged(shards, was, root, ids);
    }
  }

  lemma DropChanged(shards: map<nat, CachedShard>, was: ArchRoot, root: ArchRoot, ids: seq<nat>)
    requires |was.shards| == |root.shards| == NUM_SHARDS && IsDiff(was.shards, root.shards, ids)
    requires was.merkleRoot != root.merkleRoot && forall id | id in shards :: id < NUM_SHARDS
    ensures EvictStale(shards, Some(was), root) == shards - (set id | id in ids)
  {
  }
}
