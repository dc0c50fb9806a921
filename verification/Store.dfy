/**
 The registry as the index sees it: an append-only, content-addressed blob store, shard
 payloads written through a codec, and what a descriptor stands for in such a store.
 */
module Store {
  import opened Basics
  import opened Types
  import opened Merkle
  import opened Root

  const SCHEMA_VERSION: nat := 8

  datatype ShardPayload = ShardPayload(version: nat, shardId: nat, prefix: string, entries: Entries)

  datatype Limits = Limits(maxShardEntries: nat, maxNarSize: nat)

  datatype StoreError = Rejected | Unavailable

  function NewPayload(id: nat): ShardPayload {
    ShardPayload(SCHEMA_VERSION, id, ShardPrefix(id), map[])
  }

  /** What a payload demands of one of its entries. */
  predicate PayloadEntry(x: Platform, id: nat, h: StoreHash, e: IndexEntry) {
    && ValidEntry(x, e) && |h| >= 2 && ShardId(h) == id
    && e.system.Some? && e.system != Some(Unknown) && StorePathHash(e.meta.storePath) == Ok(h)
  }

  /** `ShardDataPayload::validate_structure`. */
  predicate ValidPayload(x: Platform, p: ShardPayload) {
    && p.version == SCHEMA_VERSION && p.shardId < NUM_SHARDS && p.prefix == ShardPrefix(p.shardId)
    && forall h | h in p.entries :: PayloadEntry(x, p.shardId, h, p.entries[h])
  }

  /** `ShardDataPayload::validate_for`. */
  predicate AllowedPayload(x: Platform, p: ShardPayload, id: nat, system: SystemArch, limits: Limits) {
    && ValidPayload(x, p) && p.shardId == id && |p.entries| <= limits.maxShardEntries
    && forall h | h in p.entries :: p.entries[h].system == Some(system) && p.entries[h].narSize <= limits.maxNarSize
  }

  /** JSON and zstd: writing a payload, reading bytes back with their uncompressed size. */
  datatype Codec = Codec(
    encode: ShardPayload -> seq<byte>, size: ShardPayload -> nat, decode: seq<byte> -> Option<(ShardPayload, nat)>)

  /** Reading undoes writing for every valid payload, and nothing is written as no bytes. */
  ghost predicate Inverse(x: Platform, c: Codec) {
    forall p | ValidPayload(x, p) ::
      c.decode(c.encode(p)) == Some((p, c.size(p))) && |c.encode(p)| > 0 && c.size(p) > 0
  }

  type Blobs = map<string, seq<byte>>

  ghost predicate Extends(a: Blobs, b: Blobs) {
    forall d | d in a :: d in b && b[d] == a[d]
  }

  // --- What a descriptor stands for ----------------------------------------------------------------

  ghost predicate KeysIn(id: nat, entries: Entries) {
    forall h | h in entries :: IsStoreHash(h) && ShardId(h) == id
  }

  /** Size, count, keys and Merkle hash of a non-empty descriptor agree with its payload, which is valid. */
  ghost predicate Describes(x: Platform, id: nat, d: ShardDescriptor, bytes: seq<byte>, p: ShardPayload, size: nat) {
    && IsCanonicalDigest(d.blobDigest) && |bytes| == d.compressedSize > 0 && size == d.uncompressedSize > 0
    && |p.entries| == d.entryCount && KeysIn(id, p.entries) && p.shardId == id && ValidPayload(x, p)
    && Canonical(p.entries) && d.merkleHash == ShardHash(x, id, p.entries)
  }

  ghost predicate ShardOk(x: Platform, c: Codec, blobs: Blobs, id: nat, d: ShardDescriptor) {
    && d.shardId == id && d.prefix == ShardPrefix(id)
    && if d.entryCount == 0 then d == EmptyDescriptor(x, id)
       else && d.blobDigest in blobs && c.decode(blobs[d.blobDigest]).Some?
            && var (p, size) := c.decode(blobs[d.blobDigest]).value;
               Describes(x, id, d, blobs[d.blobDigest], p, size)
  }

  /** The entries a descriptor stands for. */
  ghost function Content(c: Codec, blobs: Blobs, d: ShardDescriptor): Entries {
    if d.entryCount == 0 || d.blobDigest !in blobs || c.decode(blobs[d.blobDigest]).None? then map[]
    else c.decode(blobs[d.blobDigest]).value.0.entries
  }

  ghost predicate ShardsOk(x: Platform, c: Codec, blobs: Blobs, shards: seq<ShardDescriptor>) {
    |shards| == NUM_SHARDS && forall id | 0 <= id < NUM_SHARDS :: ShardOk(x, c, blobs, id, shards[id])
  }

  /** The one map of entries that 1024 descriptors stand for, one hash at a time. */
  ghost function Lookup(c: Codec, blobs: Blobs, shards: seq<ShardDescriptor>, h: StoreHash): Option<IndexEntry>
    requires |shards| == NUM_SHARDS && IsStoreHash(h)
  {
    var m := Content(c, blobs, shards[ShardId(h)]);
    if h in m then Some(m[h]) else None
  }

  lemma ShardOkExtends(x: Platform, c: Codec, a: Blobs, b: Blobs, id: nat, d: ShardDescriptor)
    requires ShardOk(x, c, a, id, d) && Extends(a, b)
    ensures ShardOk(x, c, b, id, d) && Content(c, b, d) == Content(c, a, d)
  {
  }

  /** An empty shard holds nothing, so turning a lookup away there hides no entry. */
  lemma EmptyShardHidesNothing(x: Platform, c: Codec, blobs: Blobs, shards: seq<ShardDescriptor>, h: StoreHash)
    requires ShardsOk(x, c, blobs, shards) && IsStoreHash(h)
    ensures IsEmptyShard(shards[ShardId(h)]) ==> Lookup(c, blobs, shards, h) == None
  {
  }

  /** Shards that agree with their payloads pass the structural checks. */
  lemma OkIsValid(x: Platform, c: Codec, blobs: Blobs, id: nat, d: ShardDescriptor)
    requires ShardOk(x, c, blobs, id, d) && id < NUM_SHARDS
    ensures ValidDescriptor(x, d)
  {
  }

  /** The payload passes every check of its descriptor: identity, system, limits, count and Merkle hash. */
  ghost predicate Passes(x: Platform, d: ShardDescriptor, p: ShardPayload, system: SystemArch, limits: Limits) {
    && AllowedPayload(x, p, d.shardId, system, limits) && |p.entries| == d.entryCount
    && AcceptedShard(x, p.shardId, p.entries) && Canonical(p.entries)
    && d.merkleHash == ShardHash(x, d.shardId, p.entries)
  }

  /** What reading a shard demands of the store: nothing else makes a read be refused. */
  ghost predicate Fetchable(
    x: Platform, c: Codec, blobs: Blobs, d: ShardDescriptor, system: SystemArch, limits: Limits)
  {
    && ValidDescriptor(x, d)
    && (d.entryCount != 0 ==>
          && d.blobDigest in blobs && |blobs[d.blobDigest]| == d.compressedSize && c.decode(blobs[d.blobDigest]).Some?
          && c.decode(blobs[d.blobDigest]).value.1 == d.uncompressedSize
          && Passes(x, d, c.decode(blobs[d.blobDigest]).value.0, system, limits))
  }

  // --- The registry --------------------------------------------------------------------------------

  class Registry {
    const x: Platform
    const codec: Codec
    var blobs: Blobs
    /** Two different byte strings with one digest, if the store ever met such a pair. */
    ghost var collision: Option<(seq<byte>, seq<byte>)>

    constructor (x: Platform, codec: Codec)
      requires Inverse(x, codec)
      ensures Valid() && blobs == map[] && collision.None? && this.x == x && this.codec == codec
    {
      this.x, this.codec, this.blobs, this.collision := x, codec, map[], None;
    }

    ghost predicate Valid()
      reads this
    {
      && Inverse(x, codec)
      && (forall d | d in blobs :: FormatDigest(x.sha(blobs[d])) == d)
      && (collision.Some? ==> collision.value.0 != collision.value.1 && x.sha(collision.value.0) == x.sha(collision.value.1))
    }

    /** Uploads bytes under their digest; a digest the store knows keeps the bytes it has. */
    method PushBlob(bytes: seq<byte>) returns (digest: string)
      requires Valid()
      modifies this
      ensures Valid() && Extends(old(blobs), blobs)
      ensures digest == FormatDigest(x.sha(bytes)) && digest in blobs
      ensures collision.None? ==> old(collision).None? && blobs[digest] == bytes
      ensures old(collision).None? && collision.Some? ==> collision.value.1 == bytes && collision.value.0 in old(blobs).Values
    {
      digest := FormatDigest(x.sha(bytes));
      if digest !in blobs {
        blobs := blobs[digest := bytes];
      } else if blobs[digest] != bytes {
        FormatInjective(x.sha(blobs[digest]), x.sha(bytes));
        if collision.None? {
          collision := Some((blobs[digest], bytes));
        }
      }
    }

    /** `push_shard_data`: refuses an invalid payload; a failed upload leaves the store alone. */
    method PushShard(p: ShardPayload) returns (r: Result<(string, nat, nat), StoreError>)
      requires Valid()
      modifies this
      ensures Valid() && Extends(old(blobs), blobs)
      ensures collision.None? ==> old(collision).None?
      ensures r.Ok? ==> ValidPayload(x, p)
      ensures r.Ok? && collision.None? ==>
                && IsCanonicalDigest(r.value.0) && r.value.0 in blobs
                && codec.decode(blobs[r.value.0]) == Some((p, r.value.2))
                && |blobs[r.value.0]| == r.value.1 > 0 && r.value.2 > 0
    {
      if !ValidPayload(x, p) {
        return Err(Rejected);
      }
      if * {
        return Err(Unavailable);
      }
      var bytes := codec.encode(p);
      var digest := PushBlob(bytes);
      r := Ok((digest, |bytes|, codec.size(p)));
    }

    /** `get_shard_data`: what is read agrees with its descriptor, or it is an error; only what disagrees is refused. */
    method GetShard(d: ShardDescriptor, system: SystemArch, limits: Limits) returns (r: Result<ShardPayload, StoreError>)
      requires Valid()
      ensures r.Ok? ==> Fetchable(x, codec, blobs, d, system, limits)
      ensures r == Err(Rejected) ==> !Fetchable(x, codec, blobs, d, system, limits)
      ensures r.Ok? ==> r.value.shardId == d.shardId
      ensures r.Ok? && d.entryCount == 0 ==> r.value == NewPayload(d.shardId) && d == EmptyDescriptor(x, d.shardId)
      ensures r.Ok? && d.entryCount != 0 ==>
                && d.blobDigest in blobs && codec.decode(blobs[d.blobDigest]) == Some((r.value, d.uncompressedSize))
                && AllowedPayload(x, r.value, d.shardId, system, limits)
                && |r.value.entries| == d.entryCount && Canonical(r.value.entries)
                && d.merkleHash == ShardHash(x, d.shardId, r.value.entries)
    {
      var ok := ValidateDescriptor(x, d);
      if !ok {
        return Err(Rejected);
      }
      if d.entryCount == 0 {
        return Ok(NewPayload(d.shardId));
      }
      if * {
        return Err(Unavailable);
      }
      if d.blobDigest !in blobs || |blobs[d.blobDigest]| != d.compressedSize {
        return Err(Rejected);
      }
      var decoded := codec.decode(blobs[d.blobDigest]);
      if decoded.None? || decoded.value.1 != d.uncompressedSize {
        return Err(Rejected);
      }
      r := CheckPayload(d, decoded.value.0, system, limits);
    }

    /** The checks on a decoded payload: identity, system, limits, count and Merkle hash. */
    method CheckPayload(d: ShardDescriptor, p: ShardPayload, system: SystemArch, limits: Limits)
      returns (r: Result<ShardPayload, StoreError>)
      ensures r == if Passes(x, d, p, system, limits) then Ok(p) else Err(Rejected)
    {
      if !AllowedPayload(x, p, d.shardId, system, limits) || |p.entries| != d.entryCount {
        return Err(Rejected);
      }
      var hash := ComputeShardHash(x, p.shardId, p.entries);
      if hash.Err? || hash.value != d.merkleHash {
        return Err(Rejected);
      }
      r := Ok(p);
    }
  }
}
