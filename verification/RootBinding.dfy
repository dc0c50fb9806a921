/** What the global root and the descriptor comparison promise. */
module RootBinding {
  import opened Basics
  import opened Types
  import opened Encoding
  import opened Merkle
  import opened MerkleBinding
  import opened Root

  /** Sizes and counts are `u64` values. */
  predicate SizedDescriptor(d: ShardDescriptor) {
    d.compressedSize < U64_LIMIT && d.uncompressedSize < U64_LIMIT && d.entryCount < U64_LIMIT
  }

  lemma DescriptorIsReadOneWay(x: Platform, domain: string, d: ShardDescriptor, e: ShardDescriptor)
    requires ValidDescriptor(x, d) && ValidDescriptor(x, e) && SizedDescriptor(d) && SizedDescriptor(e)
    requires WellSpelled(d) && WellSpelled(e) && DescriptorInput(domain, d) == DescriptorInput(domain, e)
    ensures d == e
  {
    var (d6, e6) := (DigestBytes(d.merkleHash), DigestBytes(e.merkleHash));
    var (d5, e5) := (U64(d.entryCount) + d6, U64(e.entryCount) + e6);
    var (d4, e4) := (U64(d.uncompressedSize) + d5, U64(e.uncompressedSize) + e5);
    var (d3, e3) := (U64(d.compressedSize) + d4, U64(e.compressedSize) + e4);
    var (d2, e2) := (OptDigest(BlobText(d)) + d3, OptDigest(BlobText(e)) + e3);
    var (d1, e1) := (Str(d.prefix) + d2, Str(e.prefix) + e2);
    SplitFixed(Str(domain), U16(d.shardId) + d1, Str(domain), U16(e.shardId) + e1);
    SplitFixed(U16(d.shardId), d1, U16(e.shardId), e1);
    U16Injective(d.shardId, e.shardId);
    SplitFixed(Str(d.prefix), d2, Str(e.prefix), e2);
    SplitOptDigest(BlobText(d), d3, BlobText(e), e3);
    if d.blobDigest != "" { DigestBytesInjective(d.blobDigest, e.blobDigest); }
    SplitU64(d.compressedSize, d4, e.compressedSize, e4);
    SplitU64(d.uncompressedSize, d5, e.uncompressedSize, e5);
    SplitU64(d.entryCount, d6, e.entryCount, e6);
    DigestBytesInjective(d.merkleHash, e.merkleHash);
  }

  ghost function DescriptorInputs(x: Platform, o: seq<ShardDescriptor>): set<seq<byte>>
    requires forall i | 0 <= i < |o| :: WellSpelled(o[i])
  {
    set i | 0 <= i < |o| :: DescriptorInput(x.tags.descriptorLeaf, o[i])
  }

  /** Every byte string that is hashed on the way from descriptors to the global root. */
  ghost function RootInputs(x: Platform, o: seq<ShardDescriptor>): set<seq<byte>>
    requires forall i | 0 <= i < |o| :: WellSpelled(o[i])
  {
    var leaves := DescriptorLeaves(x, o);
    {RootInput(x.tags.rootRoot, NUM_SHARDS, LayeredRoot(x, x.tags.rootNode, leaves))} +
    DescriptorInputs(x, o) + ClimbInputs(x, x.tags.rootNode, 1, leaves)
  }

  ghost predicate ValidOrder(x: Platform, o: seq<ShardDescriptor>) {
    |o| == NUM_SHARDS && forall i | 0 <= i < |o| :: ValidDescriptor(x, o[i]) && SizedDescriptor(o[i]) && WellSpelled(o[i])
  }

  lemma DescriptorLeavesBind(x: Platform, o: seq<ShardDescriptor>, p: seq<ShardDescriptor>)
    requires ValidOrder(x, o) && ValidOrder(x, p) && DescriptorLeaves(x, o) == DescriptorLeaves(x, p)
    ensures o == p || Collide(x, DescriptorInputs(x, o), DescriptorInputs(x, p))
  {
    var a, b := DescriptorInputs(x, o), DescriptorInputs(x, p);
    if !Collide(x, a, b) {
      forall i | 0 <= i < NUM_SHARDS ensures o[i] == p[i] {
        var s, t := DescriptorInput(x.tags.descriptorLeaf, o[i]), DescriptorInput(x.tags.descriptorLeaf, p[i]);
        assert DescriptorLeaves(x, o)[i] == DescriptorLeaves(x, p)[i];
        SameInput(x, a, b, s, t);
        DescriptorIsReadOneWay(x, x.tags.descriptorLeaf, o[i], p[i]);
      }
    }
  }

  /** Equal global roots mean equal descriptors, or a collision among the strings that were hashed. */
  lemma RootHashBinds(x: Platform, o: seq<ShardDescriptor>, p: seq<ShardDescriptor>)
    requires ValidOrder(x, o) && ValidOrder(x, p) && RootHash(x, o) == RootHash(x, p)
    ensures o == p || Collide(x, RootInputs(x, o), RootInputs(x, p))
  {
    var lo, lp := DescriptorLeaves(x, o), DescriptorLeaves(x, p);
    var to, tp := LayeredRoot(x, x.tags.rootNode, lo), LayeredRoot(x, x.tags.rootNode, lp);
    var ro, rp := RootInput(x.tags.rootRoot, NUM_SHARDS, to), RootInput(x.tags.rootRoot, NUM_SHARDS, tp);
    var a, b := RootInputs(x, o), RootInputs(x, p);
    FormatInjective(x.sha(ro), x.sha(rp));
    SameInput(x, a, b, ro, rp);
    if ro == rp {
      SplitFixed(Str(x.tags.rootRoot), U64(NUM_SHARDS) + to, Str(x.tags.rootRoot), U64(NUM_SHARDS) + tp);
      SplitFixed(U64(NUM_SHARDS), to, U64(NUM_SHARDS), tp);
      ClimbBinds(x, x.tags.rootNode, 1, lo, lp);
      if lo == lp {
        DescriptorLeavesBind(x, o, p);
        if o != p {
          CollideInMore(x, DescriptorInputs(x, o), DescriptorInputs(x, p), a, b);
        }
      } else {
        CollideInMore(x, ClimbInputs(x, x.tags.rootNode, 1, lo), ClimbInputs(x, x.tags.rootNode, 1, lp), a, b);
      }
    }
  }

  /** Skipping the comparison when the roots agree loses no changed shard, short of a collision. */
  lemma EqualRootsHaveNoDiff(x: Platform, o: seq<ShardDescriptor>, p: seq<ShardDescriptor>, ids: seq<nat>)
    requires ValidOrder(x, o) && ValidOrder(x, p) && RootHash(x, o) == RootHash(x, p) && IsDiff(o, p, ids)
    ensures ids == [] || Collide(x, RootInputs(x, o), RootInputs(x, p))
  {
    RootHashBinds(x, o, p);
    if ids != [] {
      assert ids[0] in ids;
    }
  }

  // --- Order does not matter ---------------------------------------------------------------------

  lemma TwiceInMultiset(s: seq<ShardDescriptor>, i: nat, j: nat)
    requires i < j < |s| && s[i] == s[j]
    ensures multiset(s)[s[i]] >= 2
  {
    assert s == s[..i] + [s[i]] + s[i + 1..j] + [s[j]] + s[j + 1..];
  }

  lemma {:induction false} OnceInMultiset(s: seq<ShardDescriptor>, d: ShardDescriptor)
    requires DistinctIds(s)
    ensures multiset(s)[d] <= 1
  {
    if s != [] {
      OnceInMultiset(s[1..], d);
      assert s == [s[0]] + s[1..];
      if d == s[0] && d in s[1..] {
        var i :| 1 <= i < |s| && s[i] == d;
      }
    }
  }

  lemma RearrangedIds(a: seq<ShardDescriptor>, b: seq<ShardDescriptor>)
    requires DistinctIds(a) && multiset(a) == multiset(b) && forall d :: d in a <==> d in b
    ensures DistinctIds(b)
  {
    forall i, j | 0 <= i < j < |b| ensures b[i].shardId != b[j].shardId {
      if b[i].shardId == b[j].shardId {
        SameIdSameDescriptor(a, b[i], b[j]);
        TwiceInMultiset(b, i, j);
        OnceInMultiset(a, b[i]);
      }
    }
  }

  lemma SameMembers(a: seq<ShardDescriptor>, b: seq<ShardDescriptor>)
    requires multiset(a) == multiset(b)
    ensures forall d :: d in a <==> d in b
  {
    assert forall d :: d in a <==> d in multiset(a);
    assert forall d :: d in b <==> d in multiset(b);
  }

  /** A rearranged complete set is complete and has the same order by shard, hence the same root. */
  lemma RootIgnoresOrder(x: Platform, a: seq<ShardDescriptor>, b: seq<ShardDescriptor>, o: seq<ShardDescriptor>)
    requires OnePerShard(x, a) && multiset(a) == multiset(b) && OrderedAs(a, o)
    ensures OnePerShard(x, b) && OrderedAs(b, o)
  {
    SameMembers(a, b);
    RearrangedIds(a, b);
    forall i | 0 <= i < |b| ensures ValidDescriptor(x, b[i]) {
      assert b[i] in b;
    }
    forall id | 0 <= id < NUM_SHARDS ensures HasId(b, id) {
      assert o[id] in b;
      var j :| 0 <= j < |b| && b[j] == o[id];
    }
  }

  lemma SameIdSameDescriptor(s: seq<ShardDescriptor>, d: ShardDescriptor, e: ShardDescriptor)
    requires DistinctIds(s) && d in s && e in s && d.shardId == e.shardId
    ensures d == e
  {
    var i :| 0 <= i < |s| && s[i] == d;
    var j :| 0 <= j < |s| && s[j] == e;
  }
}
