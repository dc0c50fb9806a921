/** What holds of the published indexes after promotes and purges. */
module ArchiveLaws {
  import opened Basics
  import opened Text
  import opened Types
  import opened Merkle
  import opened Root
  import opened Store
  import opened Index
  import opened Archive
  import opened Samples

  /** What is published may be served: a reader of the root sees exactly the architecture's map. */
  lemma PublishedServesMap(
    x: Platform, c: Codec, blobs: Blobs, roots: map<SystemArch, ArchRoot>, contents: Contents, s: SystemArch, h: StoreHash)
    requires AllAgree(x, c, blobs, true, roots, contents) && s in roots && IsStoreHash(h)
    ensures s in contents && ShardsOk(x, c, blobs, roots[s].shards)
    ensures Lookup(c, blobs, roots[s].shards, h) == if h in contents[s] then Some(contents[s][h]) else None
  {
    StandsAt(x, c, blobs, true, roots, contents, s);
    LookupIsMapLookup(x, c, blobs, roots[s].shards, contents[s], h);
  }

  /** Every published root passes the structural and the identity checks of a reader of its architecture. */
  lemma PublishedIsItsOwn(archive: Archive, s: SystemArch)
    requires archive.Valid() && s in archive.roots
    ensures ValidRoot(archive.reg.x, archive.roots[s])
    ensures var root := archive.roots[s]; root.system == s && root.repo == archive.repo && root.registry == archive.host
  {
    AgreeAt(archive.reg.x, archive.reg.codec, archive.reg.blobs, archive.reg.collision.None?, archive.roots,
            archive.contents, s);
    IdentifiedAt(archive.repo, archive.host, archive.roots, s);
  }

  // --- What can be read back -------------------------------------------------------------------

  /** What reading a shard demands of one entry beyond what writing it does. */
  predicate EntryAllowed(e: IndexEntry, system: SystemArch, limits: Limits) {
    e.system == Some(system) && e.narSize <= limits.maxNarSize
  }

  ghost predicate AllAllowed(m: Entries, system: SystemArch, limits: Limits) {
    forall h | h in m :: EntryAllowed(m[h], system, limits)
  }

  /** The payload of a sound descriptor passes every check of a read but those of system, size and number. */
  lemma SoundPasses(x: Platform, id: nat, d: ShardDescriptor, p: ShardPayload, system: SystemArch, limits: Limits)
    requires d.shardId == id == p.shardId && id < NUM_SHARDS && ValidPayload(x, p) && |p.entries| == d.entryCount
    requires KeysIn(id, p.entries) && Canonical(p.entries) && d.merkleHash == ShardHash(x, id, p.entries)
    ensures Passes(x, d, p, system, limits) <==> |p.entries| <= limits.maxShardEntries && AllAllowed(p.entries, system, limits)
  {
    AllowedIs(x, p, id, system, limits);
    ValidIsAccepted(x, p);
  }

  lemma ValidIsAccepted(x: Platform, p: ShardPayload)
    requires ValidPayload(x, p) && KeysIn(p.shardId, p.entries) && Canonical(p.entries)
    ensures AcceptedShard(x, p.shardId, p.entries)
  {
    forall h | h in p.entries ensures KeyedEntry(x, p.shardId, h, p.entries[h]) {
      assert PayloadEntry(x, p.shardId, h, p.entries[h]);
    }
  }

  /** What a non-empty sound descriptor says of the payload it addresses. */
  lemma SoundPayload(x: Platform, c: Codec, blobs: Blobs, id: nat, d: ShardDescriptor, m: Entries)
    returns (p: ShardPayload, size: nat)
    requires Stands(x, c, blobs, id, d, m) && d.entryCount != 0
    ensures d.shardId == id && d.blobDigest in blobs && c.decode(blobs[d.blobDigest]) == Some((p, size)) && p.entries == m
    ensures Describes(x, id, d, blobs[d.blobDigest], p, size)
  {
    p, size := c.decode(blobs[d.blobDigest]).value.0, c.decode(blobs[d.blobDigest]).value.1;
  }

  lemma FetchableFrom(
    x: Platform, c: Codec, blobs: Blobs, id: nat, d: ShardDescriptor, p: ShardPayload, size: nat, system: SystemArch, limits: Limits)
    requires ValidDescriptor(x, d) && d.entryCount != 0 && d.blobDigest in blobs
    requires c.decode(blobs[d.blobDigest]) == Some((p, size)) && |blobs[d.blobDigest]| == d.compressedSize
    requires size == d.uncompressedSize
    ensures Fetchable(x, c, blobs, d, system, limits) <==> Passes(x, d, p, system, limits)
  {
  }

  /** A shard that stands for some entries can be read exactly when they are allowed and not too many. */
  lemma FetchableIs(
    x: Platform, c: Codec, blobs: Blobs, id: nat, d: ShardDescriptor, m: Entries, system: SystemArch, limits: Limits)
    requires Stands(x, c, blobs, id, d, m) && id < NUM_SHARDS
    ensures Fetchable(x, c, blobs, d, system, limits) <==> |m| <= limits.maxShardEntries && AllAllowed(m, system, limits)
  {
    OkIsValid(x, c, blobs, id, d);
    if d.entryCount != 0 {
      var p, size := SoundPayload(x, c, blobs, id, d, m);
      FetchableFrom(x, c, blobs, id, d, p, size, system, limits);
      SoundPasses(x, id, d, p, system, limits);
    } else {
      StandingCount(x, c, blobs, id, d, m);
    }
  }

  /** A published index can be read exactly when all its entries are allowed and no shard has too many. */
  lemma IndexIsReadable(
    x: Platform, c: Codec, blobs: Blobs, shards: seq<ShardDescriptor>, m: Entries, system: SystemArch, limits: Limits)
    requires Agrees(x, c, blobs, shards, m)
    ensures AllFetchable(x, c, blobs, shards, NUM_SHARDS, system, limits) <==>
            && AllAllowed(m, system, limits)
            && forall id | 0 <= id < NUM_SHARDS :: |InShard(m, id)| <= limits.maxShardEntries
  {
    forall id | 0 <= id < NUM_SHARDS
      ensures (shards[id].entryCount != 0 ==> Fetchable(x, c, blobs, shards[id], system, limits)) <==>
              |InShard(m, id)| <= limits.maxShardEntries && AllAllowed(InShard(m, id), system, limits)
    {
      ShardIsReadable(x, c, blobs, shards, m, id, system, limits);
    }
    AllowedByShard(m, system, limits);
  }

  lemma ShardIsReadable(
    x: Platform, c: Codec, blobs: Blobs, shards: seq<ShardDescriptor>, m: Entries, id: nat, system: SystemArch, limits: Limits)
    requires Agrees(x, c, blobs, shards, m) && id < NUM_SHARDS
    ensures (shards[id].entryCount != 0 ==> Fetchable(x, c, blobs, shards[id], system, limits)) <==>
            |InShard(m, id)| <= limits.maxShardEntries && AllAllowed(InShard(m, id), system, limits)
  {
    StandsHere(x, c, blobs, shards, m, id);
    FetchableIs(x, c, blobs, id, shards[id], InShard(m, id), system, limits);
    StandingCount(x, c, blobs, id, shards[id], InShard(m, id));
  }

  lemma AllowedByShard(m: Entries, system: SystemArch, limits: Limits)
    requires AllHashes(m)
    ensures AllAllowed(m, system, limits) <==> forall id | 0 <= id < NUM_SHARDS :: AllAllowed(InShard(m, id), system, limits)
  {
    forall h | h in m ensures h in InShard(m, ShardId(h)) && InShard(m, ShardId(h))[h] == m[h] {
    }
  }

  /**
   A promoted shard can be read exactly when the incoming entries and the surviving old ones
   are allowed and their number is; writing it checks none of this.
   */
  lemma ReadableAfterPromote(
    x: Platform, c: Codec, blobs: Blobs, id: nat, d: ShardDescriptor, m: Entries, incoming: Entries,
    system: SystemArch, limits: Limits)
    requires Stands(x, c, blobs, id, d, m + incoming) && id < NUM_SHARDS
    ensures Fetchable(x, c, blobs, d, system, limits) <==>
            && AllAllowed(incoming, system, limits) && AllAllowed(m - incoming.Keys, system, limits)
            && |m.Keys + incoming.Keys| <= limits.maxShardEntries
  {
    FetchableIs(x, c, blobs, id, d, m + incoming, system, limits);
    assert (m + incoming).Keys == m.Keys + incoming.Keys;
    assert |m + incoming| == |(m + incoming).Keys|;
    AllowedMerge(m, incoming, system, limits);
  }

  /** Where a shard holds entries that are not allowed, or too many, it cannot be read, promoted into or loaded. */
  method ForeignShardIsStuck(
    reg: Registry, shards: seq<ShardDescriptor>, id: nat, incoming: Entries, system: SystemArch, limits: Limits, ghost m: Entries)
    returns (read: Result<ShardPayload, StoreError>, loaded: Result<Entries, StoreError>, promoted: Result<ShardDescriptor, StoreError>)
    requires reg.Valid() && reg.collision.None? && Agrees(reg.x, reg.codec, reg.blobs, shards, m)
    requires id < NUM_SHARDS && incoming != map[]
    requires !AllAllowed(InShard(m, id), system, limits) || |InShard(m, id)| > limits.maxShardEntries
    modifies reg
    ensures read.Err? && loaded.Err? && promoted.Err?
  {
    AgreesIsInOrder(reg.x, reg.codec, reg.blobs, shards, m);
    InOrderAt(reg.x, shards, id);
    StandsHere(reg.x, reg.codec, reg.blobs, shards, m, id);
    FetchableIs(reg.x, reg.codec, reg.blobs, id, shards[id], InShard(m, id), system, limits);
    StandingCount(reg.x, reg.codec, reg.blobs, id, shards[id], InShard(m, id));
    read := reg.GetShard(shards[id], system, limits);
    loaded := LoadEntries(reg, shards, system, limits, m);
    promoted := CompactShard(reg, id, shards[id], incoming, system, limits, InShard(m, id));
  }

  lemma AllowedIs(x: Platform, p: ShardPayload, id: nat, system: SystemArch, limits: Limits)
    requires ValidPayload(x, p) && p.shardId == id
    ensures AllowedPayload(x, p, id, system, limits) <==>
            |p.entries| <= limits.maxShardEntries && AllAllowed(p.entries, system, limits)
  {
  }

  lemma AllowedMerge(m: Entries, incoming: Entries, system: SystemArch, limits: Limits)
    ensures AllAllowed(m + incoming, system, limits) <==>
            AllAllowed(incoming, system, limits) && AllAllowed(m - incoming.Keys, system, limits)
  {
    assert forall h | h in incoming :: h in m + incoming && (m + incoming)[h] == incoming[h];
    assert forall h | h in m - incoming.Keys :: h in m + incoming && (m + incoming)[h] == m[h];
    forall h | h in m + incoming && AllAllowed(incoming, system, limits) && AllAllowed(m - incoming.Keys, system, limits)
      ensures EntryAllowed((m + incoming)[h], system, limits)
    {
      if h !in incoming {
        assert h in m - incoming.Keys;
      }
    }
  }

  /** A payload with one sample entry. */
  function SamplePayload(s: SystemArch, added: string): ShardPayload {
    var h := SampleHash('a');
    NewPayload(ShardId(h)).(entries := map[h := Sample(s, h, [], added)])
  }

  lemma OneEntryIsValid(x: Platform, h: StoreHash, e: IndexEntry)
    requires IsStoreHash(h) && ValidUnder(x, h, e)
    ensures ValidPayload(x, NewPayload(ShardId(h)).(entries := map[h := e]))
  {
  }

  /** A valid payload, which is written, that no reader of another architecture accepts under any limits. */
  lemma ForeignPayload(x: Platform, s: SystemArch, t: SystemArch, added: string, limits: Limits)
    requires s != t && s != Unknown && x.instant(added).Some? && Trim(added) != ""
    ensures ValidPayload(x, SamplePayload(s, added)) && SamplePayload(s, added).entries != map[]
    ensures !AllowedPayload(x, SamplePayload(s, added), SamplePayload(s, added).shardId, t, limits)
  {
    var h := SampleHash('a');
    SampleHashIsHash('a');
    SampleIsValid(x, s, h, [], added);
    OneEntryIsValid(x, h, Sample(s, h, [], added));
    assert h in SamplePayload(s, added).entries;
  }

  /** Taking entries out never makes a readable shard unreadable. */
  lemma ReadableAfterPurge(
    x: Platform, c: Codec, a: Blobs, b: Blobs, id: nat, d: ShardDescriptor, e: ShardDescriptor, m: Entries,
    gone: set<StoreHash>, system: SystemArch, limits: Limits)
    requires Stands(x, c, a, id, d, m) && Stands(x, c, b, id, e, m - gone) && id < NUM_SHARDS
    requires Fetchable(x, c, a, d, system, limits)
    ensures Fetchable(x, c, b, e, system, limits)
  {
    FetchableIs(x, c, a, id, d, m, system, limits);
    FetchableIs(x, c, b, id, e, m - gone, system, limits);
    SubsetSize((m - gone).Keys, m.Keys);
    assert |m - gone| == |(m - gone).Keys| && |m| == |m.Keys|;
  }

  lemma {:induction false} SubsetSize(a: set<StoreHash>, b: set<StoreHash>)
    requires a <= b
    ensures |a| <= |b|
  {
    assert b == a + (b - a);
  }
}
