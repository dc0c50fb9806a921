/**
 What the readers of a published index share: roots whose shards are in the store, cached
 shards labelled with the digest they were fetched by, and the reverse table of NAR names.
 */
module Coherence {
  import opened Basics
  import opened Types
  import opened Merkle
  import opened Root
  import opened Store
  import opened Index
  import opened Archive

  // --- Roots a reader can meet -------------------------------------------------------------------

  /** The blob a descriptor names is in the store, and its entries belong to the shard. */
  ghost predicate ShardPresent(c: Codec, blobs: Blobs, id: nat, d: ShardDescriptor) {
    && d.shardId == id && (d.entryCount == 0 ==> d.blobDigest == "")
    && (d.entryCount != 0 ==> d.blobDigest != "" && d.blobDigest in blobs)
    && KeysIn(id, Content(c, blobs, d))
  }

  ghost predicate Present(c: Codec, blobs: Blobs, root: ArchRoot) {
    |root.shards| == NUM_SHARDS && forall id | 0 <= id < NUM_SHARDS :: ShardPresent(c, blobs, id, root.shards[id])
  }

  lemma ShardOkIsPresent(x: Platform, c: Codec, blobs: Blobs, id: nat, d: ShardDescriptor)
    requires ShardOk(x, c, blobs, id, d)
    ensures ShardPresent(c, blobs, id, d)
  {
    assert d.entryCount != 0 ==> IsCanonicalDigest(d.blobDigest);
  }

  /** What promotes and purges publish can be read. */
  lemma PublishedIsPresent(x: Platform, c: Codec, blobs: Blobs, root: ArchRoot)
    requires ShardsOk(x, c, blobs, root.shards)
    ensures Present(c, blobs, root)
  {
    forall id | 0 <= id < NUM_SHARDS ensures ShardPresent(c, blobs, id, root.shards[id]) {
      ShardOkIsPresent(x, c, blobs, id, root.shards[id]);
    }
  }

  /** A root without any entry, used where none is published. */
  ghost predicate Blank(root: ArchRoot) {
    && |root.shards| == NUM_SHARDS
    && forall id | 0 <= id < NUM_SHARDS ::
         root.shards[id].shardId == id && root.shards[id].entryCount == 0 && root.shards[id].blobDigest == ""
  }

  lemma NewRootIsBlank(x: Platform, root: ArchRoot)
    requires |root.shards| == NUM_SHARDS && forall id | 0 <= id < NUM_SHARDS :: root.shards[id] == EmptyDescriptor(x, id)
    ensures Blank(root)
  {
  }

  /** The root a reader falls back to is a new one, and blank. */
  method FallbackRoot(x: Platform, system: SystemArch, repo: string, registry: string, now: string) returns (r: ArchRoot)
    ensures Blank(r) && r.system == system && r.gcRoots == []
  {
    r := NewRoot(x, system, repo, registry, now);
    NewRootIsBlank(x, r);
  }

  ghost predicate Known(roots: set<ArchRoot>, root: ArchRoot) {
    root in roots || Blank(root)
  }

  ghost predicate AllPresent(c: Codec, blobs: Blobs, roots: set<ArchRoot>) {
    forall r | r in roots :: Present(c, blobs, r)
  }

  lemma KnownIsPresent(c: Codec, blobs: Blobs, roots: set<ArchRoot>, root: ArchRoot)
    requires AllPresent(c, blobs, roots) && Known(roots, root)
    ensures Present(c, blobs, root)
  {
  }

  /** More blobs change nothing about what a present root stands for. */
  lemma PresentExtends(c: Codec, a: Blobs, b: Blobs, root: ArchRoot)
    requires Present(c, a, root) && Extends(a, b)
    ensures Present(c, b, root)
    ensures forall h | IsStoreHash(h) :: Lookup(c, b, root.shards, h) == Lookup(c, a, root.shards, h)
  {
    forall id | 0 <= id < NUM_SHARDS
      ensures ShardPresent(c, b, id, root.shards[id]) && Content(c, b, root.shards[id]) == Content(c, a, root.shards[id])
    {
      assert ShardPresent(c, a, id, root.shards[id]);
    }
  }

  // --- Cached shards ---------------------------------------------------------------------------

  /** The payload is what the digest addresses. */
  ghost predicate Addressed(c: Codec, blobs: Blobs, digest: string, p: ShardPayload) {
    digest in blobs && c.decode(blobs[digest]).Some? && c.decode(blobs[digest]).value.0 == p
  }

  /** A reverse table from NAR names to digests. */
  ghost predicate IsNarLookup(entries: Entries, names: map<string, string>) {
    && (forall n | n in names :: n != "" && exists h | h in entries :: Names(entries[h], n, names[n]))
    && forall h | h in entries && entries[h].meta.narBasename != "" :: entries[h].meta.narBasename in names
  }

  predicate Names(e: IndexEntry, name: string, digest: string) {
    e.meta.narBasename == name && e.narDigest == digest
  }

  /** `build_nar_lookup_map`; of entries that share a name the last one visited wins. */
  method BuildNarLookup(entries: Entries) returns (names: map<string, string>)
    ensures IsNarLookup(entries, names)
  {
    names := map[];
    var rest := entries.Keys;
    while rest != {}
      invariant rest <= entries.Keys
      invariant forall n | n in names :: n != "" && exists h | h in entries :: Names(entries[h], n, names[n])
      invariant forall h | h in entries && h !in rest && entries[h].meta.narBasename != "" ::
                  entries[h].meta.narBasename in names
      decreases rest
    {
      var h :| h in rest;
      var e := entries[h];
      if e.meta.narBasename != "" {
        assert Names(e, e.meta.narBasename, e.narDigest);
        names := names[e.meta.narBasename := e.narDigest];
      }
      rest := rest - {h};
    }
  }

  datatype CachedShard = CachedShard(payload: ShardPayload, names: map<string, string>, blobDigest: string, expiresAt: int)

  /** A cached shard holds what its label addresses, with the names of its entries. */
  ghost predicate Labelled(c: Codec, blobs: Blobs, e: CachedShard) {
    e.blobDigest != "" && Addressed(c, blobs, e.blobDigest, e.payload) && IsNarLookup(e.payload.entries, e.names)
  }

  ghost predicate AllLabelled(c: Codec, blobs: Blobs, shards: map<nat, CachedShard>) {
    forall id | id in shards :: Labelled(c, blobs, shards[id])
  }

  // --- Answers ---------------------------------------------------------------------------------

  /** The root binds some hash to an entry with this NAR name and digest. */
  ghost predicate BindsNar(c: Codec, blobs: Blobs, root: ArchRoot, name: string, digest: string)
    requires |root.shards| == NUM_SHARDS
  {
    exists h | IsStoreHash(h) :: Lookup(c, blobs, root.shards, h).Some? && Names(Lookup(c, blobs, root.shards, h).value, name, digest)
  }

  /** Whatever payload the shard's digest addresses decides the lookup. */
  lemma PayloadDecides(c: Codec, blobs: Blobs, root: ArchRoot, id: nat, p: ShardPayload)
    requires Present(c, blobs, root) && id < NUM_SHARDS && root.shards[id].blobDigest != ""
    requires Addressed(c, blobs, root.shards[id].blobDigest, p)
    ensures forall h | IsStoreHash(h) && ShardId(h) == id ::
              Lookup(c, blobs, root.shards, h) == if h in p.entries then Some(p.entries[h]) else None
    ensures KeysIn(id, p.entries)
  {
    assert ShardPresent(c, blobs, id, root.shards[id]);
    assert Content(c, blobs, root.shards[id]) == p.entries;
  }

  lemma EmptyDecides(c: Codec, blobs: Blobs, root: ArchRoot, h: StoreHash)
    requires Present(c, blobs, root) && IsStoreHash(h)
    requires var d := root.shards[ShardId(h)]; IsEmptyShard(d) || d.blobDigest == ""
    ensures Lookup(c, blobs, root.shards, h) == None
  {
    assert ShardPresent(c, blobs, ShardId(h), root.shards[ShardId(h)]);
  }

  lemma NameDecides(c: Codec, blobs: Blobs, root: ArchRoot, id: nat, p: ShardPayload, names: map<string, string>, name: string)
    requires Present(c, blobs, root) && id < NUM_SHARDS && root.shards[id].blobDigest != ""
    requires Addressed(c, blobs, root.shards[id].blobDigest, p) && IsNarLookup(p.entries, names) && name in names
    ensures BindsNar(c, blobs, root, name, names[name])
  {
    PayloadDecides(c, blobs, root, id, p);
    var h :| h in p.entries && Names(p.entries[h], name, names[name]);
    assert IsStoreHash(h) && ShardId(h) == id;
    assert Lookup(c, blobs, root.shards, h) == Some(p.entries[h]);
  }
}
