/** Entries written out in full, to show that what the laws warn of can happen. */
module Samples {
  import opened Basics
  import opened Text
  import opened Types

  function Zeros(): string {
    seq(64, _ => '0')
  }

  const NAME: string := "x"
  const NAR: string := "x.nar"

  function SampleHash(c: char): string {
    seq(32, _ => c)
  }

  function Basename(h: StoreHash): string {
    h + ['-'] + NAME
  }

  /** An entry of a system with the given references. */
  function Sample(system: SystemArch, h: StoreHash, refs: seq<string>, added: string): IndexEntry {
    IndexEntry(
      NAME, Some(system),
      NarInfoMeta(STORE_DIR + Basename(h), NAR, None, None, None, SampleDigest(), refs, None, [], None),
      SampleDigest(), 1, added, None)
  }

  lemma SampleHashIsHash(c: char)
    requires IsBase32(c)
    ensures IsStoreHash(SampleHash(c))
  {
  }

  lemma NameIs()
    ensures |NAME| == 1 && NAME[0] == 'x'
  {
  }

  lemma BasenameParses(h: StoreHash)
    requires IsStoreHash(h)
    ensures BasenameHash(Basename(h)) == Ok(h)
  {
    NameIsPlain(NAME);
    HashIsPlain(h);
    SplitOnceAt(h, '-', NAME);
    HashParses(h);
  }

  ghost predicate Plain(name: string) {
    name != "" && '/' !in name && '\\' !in name && forall i | 0 <= i < |name| :: !IsControl(name[i]) && !IsWhitespace(name[i])
  }

  lemma NameIsPlain(name: string)
    requires name == NAME
    ensures Plain(name)
  {
    NameIs();
  }

  lemma HashIsPlain(h: StoreHash)
    requires IsStoreHash(h)
    ensures '-' !in h && Trimmed(h)
  {
  }

  lemma HashParses(h: StoreHash)
    requires IsStoreHash(h)
    ensures ParseStoreHash(h) == Ok(h)
  {
    HashIsPlain(h);
    TrimmedIsFixed(h);
  }

  lemma BasenameIsPlain(h: StoreHash)
    requires IsStoreHash(h)
    ensures '/' !in Basename(h) && '\\' !in Basename(h) && Basename(h) != ""
  {
    NameIs();
  }

  lemma ReferenceParses(h: StoreHash)
    requires IsStoreHash(h)
    ensures ReferenceHash(Basename(h)) == Ok(h) && Normalize(Basename(h)).Ok?
  {
    BasenameIsPlain(h);
    BasenameParses(h);
    assert STORE_DIR[0] == '/';
    assert !(STORE_DIR <= Basename(h));
  }

  lemma PathParses(h: StoreHash)
    requires IsStoreHash(h)
    ensures StorePathHash(STORE_DIR + Basename(h)) == Ok(h)
  {
    BasenameIsPlain(h);
    BasenameParses(h);
    assert (STORE_DIR + Basename(h))[|STORE_DIR|..] == Basename(h);
  }

  // --- Validity --------------------------------------------------------------------------------

  lemma NarIsPlain()
    ensures IsNarBasename(NAR)
  {
  }

  function SampleDigest(): string {
    "sha256:" + Zeros()
  }

  lemma DigestIsCanonical()
    ensures IsCanonicalDigest(SampleDigest())
  {
    assert forall i | 7 <= i < 71 :: SampleDigest()[i] == '0';
  }

  lemma DigestIsNixHash()
    ensures IsNixHash(SampleDigest())
  {
    DigestIsCanonical();
    CanonicalSplits(SampleDigest());
    assert SampleDigest()[7..] == Zeros();
  }

  /** An entry that may be stored under the hash. */
  predicate ValidUnder(x: Platform, h: StoreHash, e: IndexEntry) {
    ValidEntry(x, e) && StorePathHash(e.meta.storePath) == Ok(h) && e.system.Some? && IsCanonicalDigest(e.narDigest)
  }

  lemma SampleMetaIsValid(system: SystemArch, h: StoreHash, refs: seq<string>, added: string)
    requires IsStoreHash(h) && forall i | 0 <= i < |refs| :: Normalize(refs[i]).Ok?
    ensures ValidMeta(Sample(system, h, refs, added).meta)
    ensures StorePathHash(Sample(system, h, refs, added).meta.storePath) == Ok(h)
  {
    PathParses(h);
    NarIsPlain();
    DigestIsNixHash();
  }

  lemma SampleIsValid(x: Platform, system: SystemArch, h: StoreHash, refs: seq<string>, added: string)
    requires IsStoreHash(h) && system != Unknown && x.instant(added).Some? && Trim(added) != ""
    requires forall i | 0 <= i < |refs| :: Normalize(refs[i]).Ok?
    ensures ValidUnder(x, h, Sample(system, h, refs, added))
  {
    SampleMetaIsValid(system, h, refs, added);
    DigestIsCanonical();
    NameIs();
    Assembled(x, h, Sample(system, h, refs, added));
  }

  lemma Assembled(x: Platform, h: StoreHash, e: IndexEntry)
    requires e.name != "" && e.system.Some? && e.system != Some(Unknown) && e.narSize != 0 && e.origin.None?
    requires ValidMeta(e.meta) && StorePathHash(e.meta.storePath) == Ok(h) && IsCanonicalDigest(e.narDigest)
    requires Trim(e.added) != "" && x.instant(e.added).Some?
    ensures ValidUnder(x, h, e)
  {
    CanonicalParses(e.narDigest);
  }
}
