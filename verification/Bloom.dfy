/**
 The blocked Bloom filter: 512-bit blocks of eight words, one block and a few probes in it
 per key, and the little-endian byte form of the bit map. A word is modelled as its 64
 bits, so that setting or testing `1 << b` in word `w` is an access to cell `64 * w + b`.
 */
module Bloom {
  import opened Basics

  const MAX_BLOCKS: nat := 1_048_576
  const MAX_HASHES: nat := 30
  const WORDS_PER_BLOCK: nat := 8
  const BLOCK_BITS: nat := 512

  datatype BloomError =
    | InvalidHashCount | InvalidByteLength | InvalidBlockCount | BlockLimitExceeded | InvalidStructure
    | EntryCountOverflow

  type Key = seq<bv8>

  /** The two hash words of a key; every law holds for any such function. */
  type Hasher = Key -> (bv64, bv64)

  // --- Probes ----------------------------------------------------------------------------------

  lemma Masked(v: bv64)
    ensures (v & 511) & 511 == v & 511
  {
  }

  /** Which of the 512 bits of a block the `i`th probe of a hash falls on. */
  function InBlock(h: (bv64, bv64), i: bv8): (r: bv64)
    ensures r & 511 == r
  {
    var base := (h.0 >> 32) ^ (h.0 & 0xFFFF_FFFF);
    var step := h.1 | 1;
    Masked(base + (i as bv64) * step);
    (base + (i as bv64) * step) & 511
  }

  /** The word of a block and the bit of that word. */
  function Place(inBlock: bv64): (p: (nat, nat))
    requires inBlock & 511 == inBlock
    ensures p.0 < WORDS_PER_BLOCK && p.1 < 64
  {
    (((inBlock >> 6) as bv3) as nat, ((inBlock & 63) as bv6) as nat)
  }

  function Probe(h: (bv64, bv64), i: bv8): (p: (nat, nat))
    ensures p.0 < WORDS_PER_BLOCK && p.1 < 64
  {
    Place(InBlock(h, i))
  }

  function BlockOf(h: (bv64, bv64), blocks: nat): (k: nat)
    requires blocks > 0
    ensures k < blocks
  {
    (h.0 as nat) % blocks
  }

  /** The cell of the bit map that the `i`th probe falls on. */
  function Cell(h: (bv64, bv64), blocks: nat, i: bv8): (k: nat)
    requires blocks > 0
    ensures BLOCK_BITS * BlockOf(h, blocks) <= k < BLOCK_BITS * (BlockOf(h, blocks) + 1) <= BLOCK_BITS * blocks
  {
    var (word, bit) := Probe(h, i);
    64 * (WORDS_PER_BLOCK * BlockOf(h, blocks) + word) + bit
  }

  function Index(i: nat): bv8
    requires i < 256
  {
    i as bv8
  }

  /** Fewer than 32 multiples of an odd step all differ in their lowest nine bits. */
  lemma OddStepsDiffer(step: bv64, i: bv64, j: bv64)
    requires step & 1 == 1 && i < 32 && j < 32 && (i * step) & 511 == (j * step) & 511
    ensures i == j
  {
  }

  lemma SameShift(base: bv64, p: bv64, q: bv64)
    requires (base + p) & 511 == (base + q) & 511
    ensures p & 511 == q & 511
  {
  }

  lemma ShiftedStepsDiffer(base: bv64, step: bv64, i: bv64, j: bv64)
    requires step & 1 == 1 && i < 32 && j < 32 && (base + i * step) & 511 == (base + j * step) & 511
    ensures i == j
  {
    SameShift(base, i * step, j * step);
    OddStepsDiffer(step, i, j);
  }

  lemma PlacesDiffer(p: bv64, q: bv64)
    requires p & 511 == p && q & 511 == q && p != q
    ensures Place(p) != Place(q)
  {
  }

  lemma OddStep(step: bv64)
    ensures (step | 1) & 1 == 1
  {
  }

  lemma SmallIndex(i: bv8)
    requires i < 32
    ensures i as bv64 < 32
  {
  }

  lemma SameIndex(i: bv8, j: bv8)
    requires i as bv64 == j as bv64
    ensures i == j
  {
  }

  lemma BitsDiffer(h: (bv64, bv64), i: bv8, j: bv8)
    requires i < 32 && j < 32 && InBlock(h, i) == InBlock(h, j)
    ensures i == j
  {
    var base, step := (h.0 >> 32) ^ (h.0 & 0xFFFF_FFFF), h.1 | 1;
    OddStep(h.1);
    SmallIndex(i);
    SmallIndex(j);
    ShiftedStepsDiffer(base, step, i as bv64, j as bv64);
    SameIndex(i, j);
  }

  lemma BitsApart(h: (bv64, bv64), i: bv8, j: bv8)
    requires i < 32 && j < 32 && i != j
    ensures InBlock(h, i) != InBlock(h, j)
  {
    if InBlock(h, i) == InBlock(h, j) { BitsDiffer(h, i, j); }
  }

  lemma PlacesApart(h: (bv64, bv64), i: bv8, j: bv8)
    requires i < 32 && j < 32 && i != j
    ensures Probe(h, i) != Probe(h, j)
  {
    BitsApart(h, i, j);
    PlacesDiffer(InBlock(h, i), InBlock(h, j));
  }

  lemma CellsApart(block: nat, p: (nat, nat), q: (nat, nat))
    requires p.1 < 64 && q.1 < 64 && p != q
    ensures 64 * (WORDS_PER_BLOCK * block + p.0) + p.1 != 64 * (WORDS_PER_BLOCK * block + q.0) + q.1
  {
  }

  /** No two probes of one key fall on one cell. */
  lemma ProbesDiffer(h: (bv64, bv64), blocks: nat, i: bv8, j: bv8)
    requires blocks > 0 && i < 32 && j < 32 && i != j
    ensures Cell(h, blocks, i) != Cell(h, blocks, j)
  {
    PlacesApart(h, i, j);
    CellsApart(BlockOf(h, blocks), Probe(h, i), Probe(h, j));
  }

  /** The cells of the first `n` probes. */
  ghost predicate Probed(h: (bv64, bv64), blocks: nat, n: nat, k: nat)
    requires blocks > 0 && n <= 256
  {
    exists i | 0 <= i < n :: Cell(h, blocks, Index(i)) == k
  }

  ghost function ProbedCells(h: (bv64, bv64), blocks: nat, n: nat): set<nat>
    requires blocks > 0 && n <= 256
  {
    set i | 0 <= i < n :: Cell(h, blocks, Index(i))
  }

  lemma IndexIs(i: nat)
    requires i < 32
    ensures Index(i) as nat == i
  {
  }

  lemma IndexIsSmall(i: nat)
    requires i < 32
    ensures Index(i) < 32
  {
    IndexIs(i);
  }

  lemma IndexKeeps(i: nat, j: nat)
    requires i < j < 32
    ensures Index(i) != Index(j) && Index(i) < 32 && Index(j) < 32
  {
    IndexIs(i);
    IndexIs(j);
    IndexIsSmall(i);
    IndexIsSmall(j);
  }

  /** Each of a key's probes falls on a cell of its own, all in the key's block. */
  lemma {:induction false} ProbesSpread(h: (bv64, bv64), blocks: nat, n: nat)
    requires blocks > 0 && n <= MAX_HASHES
    ensures |ProbedCells(h, blocks, n)| == n
    ensures forall k | k in ProbedCells(h, blocks, n) :: k / BLOCK_BITS == BlockOf(h, blocks)
  {
    if n == 0 {
      assert ProbedCells(h, blocks, n) == {};
    } else {
      ProbesSpread(h, blocks, n - 1);
      var last := Cell(h, blocks, Index(n - 1));
      assert ProbedCells(h, blocks, n) == ProbedCells(h, blocks, n - 1) + {last};
      forall i | 0 <= i < n - 1 ensures Cell(h, blocks, Index(i)) != last {
        IndexKeeps(i, n - 1);
        ProbesDiffer(h, blocks, Index(i), Index(n - 1));
      }
    }
  }

  /** Every probe of the hash falls on a set cell. */
  ghost predicate Present(bits: seq<bool>, blocks: nat, n: nat, h: (bv64, bv64))
    requires blocks > 0 && n <= 256 && |bits| == BLOCK_BITS * blocks
  {
    forall i | 0 <= i < n :: bits[Cell(h, blocks, Index(i))]
  }

  /** More set cells keep what is present. */
  lemma PresentGrows(a: seq<bool>, b: seq<bool>, blocks: nat, n: nat, h: (bv64, bv64))
    requires blocks > 0 && n <= 256 && |a| == |b| == BLOCK_BITS * blocks
    requires Present(a, blocks, n, h) && forall k | 0 <= k < |a| :: a[k] ==> b[k]
    ensures Present(b, blocks, n, h)
  {
  }

  // --- The filter ------------------------------------------------------------------------------

  datatype Filter = Filter(bits: seq<bool>, numBlocks: nat, numEntries: nat, numHashes: nat)

  /** `validate_internal`. */
  predicate WellFormed(f: Filter) {
    && 1 <= f.numBlocks <= MAX_BLOCKS && |f.bits| == BLOCK_BITS * f.numBlocks && 1 <= f.numHashes <= MAX_HASHES
    && f.numEntries < U64_LIMIT
  }

  class BloomFilter {
    const hash: Hasher
    const bits: array<bool>
    const numBlocks: nat
    const numHashes: nat
    var numEntries: nat
    /** The keys whose insertion succeeded. */
    ghost var inserted: set<Key>

    constructor (hash: Hasher, f: Filter)
      requires f.numEntries < U64_LIMIT
      ensures Valid() && inserted == {} && View() == f && fresh(bits) && this.hash == hash
    {
      this.hash, numBlocks, numHashes, numEntries := hash, f.numBlocks, f.numHashes, f.numEntries;
      bits := new bool[|f.bits|](i requires 0 <= i < |f.bits| => f.bits[i]);
      inserted := {};
      new;
      assert bits[..] == f.bits;
    }

    ghost function View(): Filter
      reads this, bits
    {
      Filter(bits[..], numBlocks, numEntries, numHashes)
    }

    ghost predicate Has(key: Key)
      reads this, bits
      requires WellFormed(View())
    {
      Present(bits[..], numBlocks, numHashes, hash(key))
    }

    /** Every key inserted is present, and some entry was counted for it. */
    ghost predicate Valid()
      reads this, bits
    {
      && numEntries < U64_LIMIT && (inserted != {} ==> WellFormed(View()) && numEntries > 0)
      && (WellFormed(View()) ==> forall key | key in inserted :: Has(key))
    }

    /** `validate_internal`. */
    method ValidateInternal() returns (r: Result<(), BloomError>)
      requires numEntries < U64_LIMIT
      ensures r.Ok? <==> WellFormed(View())
    {
      if numBlocks == 0 {
        return Err(InvalidBlockCount);
      }
      if numBlocks > MAX_BLOCKS {
        return Err(BlockLimitExceeded);
      }
      if bits.Length != BLOCK_BITS * numBlocks {
        return Err(InvalidStructure);
      }
      r := if 1 <= numHashes <= MAX_HASHES then Ok(()) else Err(InvalidHashCount);
    }

    /** `insert_bytes`: sets exactly the probed cells, or changes nothing. */
    method InsertBytes(key: Key) returns (r: Result<(), BloomError>)
      requires Valid()
      modifies this, bits
      ensures Valid()
      ensures r.Ok? <==> old(WellFormed(View())) && old(numEntries) + 1 < U64_LIMIT
      ensures r.Err? ==> View() == old(View()) && inserted == old(inserted)
      ensures r.Ok? ==> inserted == old(inserted) + {key} && numEntries == old(numEntries) + 1
      ensures r.Ok? ==> forall k | 0 <= k < bits.Length ::
                          bits[k] <==> old(bits[k]) || Probed(hash(key), numBlocks, numHashes, k)
    {
      var valid := ValidateInternal();
      if valid.Err? {
        return valid;
      }
      if numEntries + 1 >= U64_LIMIT {
        return Err(EntryCountOverflow);
      }
      var h := hash(key);
      for i := 0 to numHashes
        invariant numEntries == old(numEntries) && inserted == old(inserted)
        invariant forall k | 0 <= k < bits.Length :: bits[k] <==> old(bits[k]) || Probed(h, numBlocks, i, k)
      {
        var cell := Cell(h, numBlocks, Index(i));
        ProbedGrows(h, numBlocks, i);
        bits[cell] := true;
      }
      assert Present(bits[..], numBlocks, numHashes, h) by {
        forall i | 0 <= i < numHashes ensures bits[Cell(h, numBlocks, Index(i))] {
          assert Probed(h, numBlocks, numHashes, Cell(h, numBlocks, Index(i)));
        }
      }
      forall other | other in inserted ensures Has(other) {
        PresentGrows(old(bits[..]), bits[..], numBlocks, numHashes, hash(other));
      }
      numEntries := numEntries + 1;
      inserted := inserted + {key};
      r := Ok(());
    }

    /** `contains_bytes`: no inserted key is missed, and every access is in bounds. */
    method ContainsBytes(key: Key) returns (r: bool)
      requires Valid() && WellFormed(View())
      ensures r <==> numEntries != 0 && Has(key)
      ensures key in inserted ==> r
    {
      if numEntries == 0 {
        return false;
      }
      var h := hash(key);
      for i := 0 to numHashes
        invariant forall j | 0 <= j < i :: bits[Cell(h, numBlocks, Index(j))]
      {
        if !bits[Cell(h, numBlocks, Index(i))] {
          return false;
        }
      }
      r := true;
    }

    method ToBytes() returns (bytes: seq<byte>)
      requires Valid() && WellFormed(View())
      ensures bytes == Packed(bits[..]) && |bytes| == 64 * numBlocks
    {
      bytes := [];
      for j := 0 to bits.Length / 8
        invariant |bytes| == j && forall i | 0 <= i < j :: bytes[i] == Pack(bits[8 * i..8 * i + 8])
      {
        bytes := bytes + [Pack(bits[8 * j..8 * j + 8])];
      }
      assert bytes == Packed(bits[..]) by {
        forall i | 0 <= i < |bytes| ensures bytes[i] == Packed(bits[..])[i] {
          assert bits[..][8 * i..8 * i + 8] == bits[8 * i..8 * i + 8];
        }
      }
    }
  }

  lemma ProbedGrows(h: (bv64, bv64), blocks: nat, n: nat)
    requires blocks > 0 && n < 256
    ensures forall k :: Probed(h, blocks, n + 1, k) <==> Probed(h, blocks, n, k) || k == Cell(h, blocks, Index(n))
  {
    forall k ensures Probed(h, blocks, n + 1, k) <==> Probed(h, blocks, n, k) || k == Cell(h, blocks, Index(n)) {
      if k == Cell(h, blocks, Index(n)) { assert Cell(h, blocks, Index(n)) == k; }
    }
  }

  // --- Bytes -----------------------------------------------------------------------------------

  function Power2(k: nat): (p: nat)
    ensures p > 0
  {
    if k == 0 then 1 else 2 * Power2(k - 1)
  }

  /** The number with the given bits, the lowest first. */
  function BitsValue(b: seq<bool>): (n: nat)
    ensures n < Power2(|b|)
  {
    if b == [] then 0 else (if b[0] then 1 else 0) + 2 * BitsValue(b[1..])
  }

  function BitsOf(n: nat, k: nat): (b: seq<bool>)
    ensures |b| == k
  {
    if k == 0 then [] else [n % 2 == 1] + BitsOf(n / 2, k - 1)
  }

  lemma Power2Of8()
    ensures Power2(8) == 256
  {
    assert Power2(4) == 16;
  }

  /** Eight bits as a byte. */
  function Pack(b: seq<bool>): byte
    requires |b| == 8
  {
    Power2Of8();
    BitsValue(b)
  }

  function Unpack(n: byte): (b: seq<bool>)
    ensures |b| == 8
  {
    BitsOf(n, 8)
  }

  function Packed(bits: seq<bool>): (r: seq<byte>)
    ensures |r| == |bits| / 8
  {
    seq(|bits| / 8, j requires 0 <= j < |bits| / 8 => Pack(bits[8 * j..8 * j + 8]))
  }

  function Unpacked(bytes: seq<byte>): (r: seq<bool>)
    ensures |r| == 8 * |bytes|
  {
    seq(8 * |bytes|, k requires 0 <= k < 8 * |bytes| => Unpack(bytes[k / 8])[k % 8])
  }

  lemma {:induction false} BitsOfValue(b: seq<bool>)
    ensures BitsOf(BitsValue(b), |b|) == b
  {
    if b != [] {
      BitsOfValue(b[1..]);
      var n := BitsValue(b);
      assert n / 2 == BitsValue(b[1..]) && (n % 2 == 1 <==> b[0]);
    }
  }

  lemma {:induction false} ValueOfBits(n: nat, k: nat)
    requires n < Power2(k)
    ensures BitsValue(BitsOf(n, k)) == n
  {
    if k > 0 {
      ValueOfBits(n / 2, k - 1);
      var b := BitsOf(n, k);
      assert b[1..] == BitsOf(n / 2, k - 1) && (b[0] <==> n % 2 == 1);
    }
  }

  lemma UnpackPack(b: seq<bool>)
    requires |b| == 8
    ensures Unpack(Pack(b)) == b
  {
    BitsOfValue(b);
  }

  lemma PackUnpack(n: byte)
    ensures Pack(Unpack(n)) == n
  {
    Power2Of8();
    ValueOfBits(n, 8);
  }

  lemma SplitIndex(k: nat, n: nat) returns (j: nat, r: nat)
    requires k < n && n % 8 == 0
    ensures j == k / 8 && r == k % 8 && k == 8 * j + r && r < 8 && 8 * j + 8 <= n && j < n / 8
  {
    j, r := k / 8, k % 8;
  }

  lemma UnpackedAt(bits: seq<bool>, k: nat)
    requires |bits| % 8 == 0 && k < |bits|
    ensures Unpacked(Packed(bits))[k] == bits[k]
  {
    var j, r := SplitIndex(k, |bits|);
    var eight := bits[8 * j..8 * j + 8];
    UnpackPack(eight);
    assert Packed(bits)[j] == Pack(eight);
    assert eight[r] == bits[k];
  }

  lemma UnpackedPacked(bits: seq<bool>)
    requires |bits| % 8 == 0
    ensures Unpacked(Packed(bits)) == bits
  {
    forall k | 0 <= k < |bits| ensures Unpacked(Packed(bits))[k] == bits[k] {
      UnpackedAt(bits, k);
    }
  }

  lemma EightOf(bytes: seq<byte>, j: nat)
    requires j < |bytes|
    ensures Unpacked(bytes)[8 * j..8 * j + 8] == Unpack(bytes[j])
  {
    forall r | 0 <= r < 8 ensures Unpacked(bytes)[8 * j + r] == Unpack(bytes[j])[r] {
      assert (8 * j + r) / 8 == j && (8 * j + r) % 8 == r;
    }
  }

  lemma PackedUnpacked(bytes: seq<byte>)
    ensures Packed(Unpacked(bytes)) == bytes
  {
    forall j | 0 <= j < |bytes| ensures Packed(Unpacked(bytes))[j] == bytes[j] {
      EightOf(bytes, j);
      PackUnpack(bytes[j]);
    }
  }

  /** `from_bytes`, as a value. */
  function Restore(bytes: seq<byte>, numEntries: nat, numHashes: nat): Result<Filter, BloomError> {
    if !(1 <= numHashes <= MAX_HASHES) then Err(InvalidHashCount)
    else if bytes == [] || |bytes| % 64 != 0 then Err(InvalidByteLength)
    else if |bytes| / 64 > MAX_BLOCKS then Err(BlockLimitExceeded)
    else Ok(Filter(Unpacked(bytes), |bytes| / 64, numEntries, numHashes))
  }

  method FromBytes(hash: Hasher, bytes: seq<byte>, numEntries: nat, numHashes: nat)
    returns (r: Result<BloomFilter, BloomError>)
    requires numEntries < U64_LIMIT
    ensures r.Ok? <==> Restore(bytes, numEntries, numHashes).Ok?
    ensures r.Err? ==> r.error == Restore(bytes, numEntries, numHashes).error
    ensures r.Ok? ==> fresh(r.value) && fresh(r.value.bits) && r.value.Valid() && r.value.hash == hash
    ensures r.Ok? ==> r.value.View() == Restore(bytes, numEntries, numHashes).value
  {
    if !(1 <= numHashes <= MAX_HASHES) {
      return Err(InvalidHashCount);
    }
    if bytes == [] || |bytes| % 64 != 0 {
      return Err(InvalidByteLength);
    }
    var blocks := |bytes| / 64;
    if blocks > MAX_BLOCKS {
      return Err(BlockLimitExceeded);
    }
    var bits: seq<bool> := [];
    for j := 0 to |bytes|
      invariant |bits| == 8 * j && bits == Unpacked(bytes[..j])
    {
      ghost var was := bits;
      bits := bits + Unpack(bytes[j]);
      UnpackedNext(bytes, j);
    }
    TakeAll(bytes);
    var filter := new BloomFilter(hash, Filter(bits, blocks, numEntries, numHashes));
    r := Ok(filter);
  }

  lemma UnpackedNext(bytes: seq<byte>, j: nat)
    requires j < |bytes|
    ensures Unpacked(bytes[..j + 1]) == Unpacked(bytes[..j]) + Unpack(bytes[j])
  {
    var a, b := Unpacked(bytes[..j + 1]), Unpacked(bytes[..j]) + Unpack(bytes[j]);
    forall k | 0 <= k < 8 * (j + 1) ensures a[k] == b[k] {
      if k >= 8 * j { assert k / 8 == j && k % 8 == k - 8 * j; }
    }
  }

  lemma WholeBytes(bits: nat, blocks: nat)
    requires bits == BLOCK_BITS * blocks
    ensures bits % 8 == 0 && bits / 8 == 64 * blocks && (bits / 8) % 64 == 0 && bits / 8 / 64 == blocks
  {
    assert bits == 8 * (64 * blocks);
  }

  /** Restoring what was exported gives the same filter back, and the other way round. */
  lemma RestoreUndoesExport(f: Filter)
    requires WellFormed(f)
    ensures Restore(Packed(f.bits), f.numEntries, f.numHashes) == Ok(f)
  {
    WholeBytes(|f.bits|, f.numBlocks);
    UnpackedPacked(f.bits);
  }

  lemma ExportUndoesRestore(bytes: seq<byte>, numEntries: nat, numHashes: nat)
    requires Restore(bytes, numEntries, numHashes).Ok? && numEntries < U64_LIMIT
    ensures WellFormed(Restore(bytes, numEntries, numHashes).value)
    ensures Packed(Restore(bytes, numEntries, numHashes).value.bits) == bytes
  {
    PackedUnpacked(bytes);
  }
}
