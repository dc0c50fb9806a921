/**
 The poll-driven stream wrappers of the registry client. The wrapped stream is the
 environment: at every poll it is pending, gives a chunk, fails or ends.
 */
module Streams {
  import opened Basics
  import opened Text
  import opened Types

  datatype Inner = Pending | Chunk(bytes: seq<byte>) | Failure | End

  datatype StreamError = Transport | SizeLimitExceeded | SizeMismatch | HeaderDigestMismatch | DigestMismatch

  datatype Outer = NotReady | Yield(bytes: seq<byte>) | Fail(error: StreamError) | Finished

  const U64_MAX: nat := U64_LIMIT - 1

  /** What was yielded by some polls. */
  function Yielded(outs: seq<Outer>): seq<byte> {
    if outs == [] then [] else Yielded(outs[..|outs| - 1]) + (if outs[|outs| - 1].Yield? then outs[|outs| - 1].bytes else [])
  }

  // --- Verified blobs --------------------------------------------------------------------------

  /** What a blob is checked against; a header that is not text is `Some(None)`. */
  datatype Expectation = Expectation(
    digest: string, header: Option<Option<string>>, contentLength: Option<nat>, maxBytes: nat)

  /** What `VerifiedBlobStream::new` accepts. */
  predicate Acceptable(e: Expectation) {
    IsCanonicalDigest(e.digest) && (e.contentLength.Some? ==> e.contentLength.value <= e.maxBytes) && e.maxBytes <= U64_MAX
  }

  datatype OpenError = InvalidDescriptor | HeaderParse | DeclaredTooLarge

  /** A header: absent, not text, or text. */
  type Header = Option<Option<string>>

  /** `parse_content_length`: a header that is no 64-bit number is an error. */
  function DeclaredLength(h: Header): (r: Result<Option<nat>, OpenError>)
    ensures r.Err? <==> h.Some? && (h.value.None? || ParseU64(h.value.value).None?)
    ensures r == Ok(None) <==> h.None?
    ensures r.Ok? && h.Some? ==> r.value == ParseU64(h.value.value)
  {
    match h
    case None => Ok(None)
    case Some(None) => Err(HeaderParse)
    case Some(Some(text)) => if ParseU64(text).None? then Err(HeaderParse) else Ok(ParseU64(text))
  }

  /** `VerifiedBlobStream::new`. */
  method OpenVerified(x: Platform, digest: string, digestHeader: Header, lengthHeader: Header, maxBytes: nat)
    returns (r: Result<VerifiedBlobStream, OpenError>)
    requires maxBytes <= U64_MAX
    ensures r.Ok? <==>
            && DeclaredLength(lengthHeader).Ok?
            && Acceptable(Expectation(digest, digestHeader, DeclaredLength(lengthHeader).value, maxBytes))
    ensures r.Ok? ==>
              && fresh(r.value) && r.value.x == x && r.value.State() == FRESH
              && r.value.e == Expectation(digest, digestHeader, DeclaredLength(lengthHeader).value, maxBytes)
  {
    if !IsCanonicalDigest(digest) {
      return Err(InvalidDescriptor);
    }
    var length := DeclaredLength(lengthHeader);
    if length.Err? {
      return Err(length.error);
    }
    if length.value.Some? && length.value.value > maxBytes {
      return Err(DeclaredTooLarge);
    }
    var stream := new VerifiedBlobStream(x, Expectation(digest, digestHeader, length.value, maxBytes));
    r := Ok(stream);
  }

  datatype Verifying = Verifying(bytesSeen: nat, hashed: seq<byte>, finished: bool)

  function HeaderMatches(e: Expectation, actual: string): bool {
    e.header.Some? ==> e.header.value.Some? && IsCanonicalDigest(e.header.value.value) && e.header.value.value == actual
  }

  /** The checks at the end of the stream, in order. */
  function Verdict(x: Platform, e: Expectation, seen: nat, hashed: seq<byte>): Outer {
    var actual := FormatDigest(x.sha(hashed));
    if e.contentLength.Some? && e.contentLength.value != seen then Fail(SizeMismatch)
    else if !HeaderMatches(e, actual) then Fail(HeaderDigestMismatch)
    else if e.digest != actual then Fail(DigestMismatch)
    else Finished
  }

  function VerifyPoll(x: Platform, e: Expectation, s: Verifying, i: Inner): (Verifying, Outer) {
    if s.finished then (s, Finished)
    else
      match i
      case Pending => (s, NotReady)
      case Failure => (s.(finished := true), Fail(Transport))
      case Chunk(bytes) =>
        var total := SaturatingAdd(s.bytesSeen, |bytes|);
        if total > e.maxBytes then (s.(finished := true), Fail(SizeLimitExceeded))
        else (Verifying(total, s.hashed + bytes, false), Yield(bytes))
      case End => (s.(finished := true), Verdict(x, e, s.bytesSeen, s.hashed))
  }

  const FRESH := Verifying(0, [], false)

  class VerifiedBlobStream {
    const x: Platform
    const e: Expectation
    var bytesSeen: nat
    var hasher: seq<byte>
    var finished: bool

    constructor (x: Platform, e: Expectation)
      requires Acceptable(e)
      ensures this.x == x && this.e == e && State() == FRESH
    {
      this.x, this.e := x, e;
      bytesSeen, hasher, finished := 0, [], false;
    }

    ghost function State(): Verifying
      reads this
    {
      Verifying(bytesSeen, hasher, finished)
    }

    method PollNext(inner: Inner) returns (out: Outer)
      modifies this
      ensures (State(), out) == VerifyPoll(x, e, old(State()), inner)
    {
      if finished {
        return Finished;
      }
      match inner {
        case Pending => out := NotReady;
        case Failure =>
          finished := true;
          out := Fail(Transport);
        case Chunk(bytes) =>
          var total := SaturatingAdd(bytesSeen, |bytes|);
          if total > e.maxBytes {
            finished := true;
            return Fail(SizeLimitExceeded);
          }
          bytesSeen, hasher := total, hasher + bytes;
          out := Yield(bytes);
        case End =>
          finished := true;
          var actual := FormatDigest(x.sha(hasher));
          if e.contentLength.Some? && e.contentLength.value != bytesSeen {
            return Fail(SizeMismatch);
          }
          if !HeaderMatches(e, actual) {
            return Fail(HeaderDigestMismatch);
          }
          out := if e.digest != actual then Fail(DigestMismatch) else Finished;
      }
    }
  }

  /** The state after some polls, and what they returned. */
  function VerifyRun(x: Platform, e: Expectation, inner: seq<Inner>): (r: (Verifying, seq<Outer>))
    ensures |r.1| == |inner|
  {
    if inner == [] then (FRESH, [])
    else
      var (s, outs) := VerifyRun(x, e, inner[..|inner| - 1]);
      var (s', out) := VerifyPoll(x, e, s, inner[|inner| - 1]);
      (s', outs + [out])
  }

  predicate Final(o: Outer) {
    o.Fail? || o.Finished?
  }

  /** No poll reported an error. */
  predicate Clean(outs: seq<Outer>) {
    forall i | 0 <= i < |outs| :: !outs[i].Fail?
  }

  lemma YieldedNext(outs: seq<Outer>, o: Outer)
    ensures Yielded(outs + [o]) == Yielded(outs) + (if o.Yield? then o.bytes else [])
  {
    assert (outs + [o])[..|outs|] == outs;
  }

  function Saturated(n: nat): nat {
    if n <= U64_MAX then n else U64_MAX
  }

  lemma PollCounts(x: Platform, e: Expectation, s: Verifying, i: Inner)
    requires s.bytesSeen == Saturated(|s.hashed|) <= e.maxBytes
    ensures var (s', out) := VerifyPoll(x, e, s, i);
            && s'.bytesSeen == Saturated(|s'.hashed|) <= e.maxBytes
            && s'.hashed == s.hashed + (if out.Yield? then out.bytes else [])
            && (s'.finished <==> s.finished || Final(out))
  {
    assert s.hashed + [] == s.hashed;
  }

  ghost predicate SomeFinal(outs: seq<Outer>) {
    exists i | 0 <= i < |outs| :: Final(outs[i])
  }

  lemma SomeFinalNext(outs: seq<Outer>, o: Outer)
    ensures SomeFinal(outs + [o]) <==> SomeFinal(outs) || Final(o)
  {
    var next := outs + [o];
    assert next[|outs|] == o;
    if SomeFinal(outs) {
      var i :| 0 <= i < |outs| && Final(outs[i]);
      assert next[i] == outs[i];
    }
  }

  /** The state tells what was yielded, how far it was counted and whether the end was reached. */
  lemma {:induction false} VerifyInvariant(x: Platform, e: Expectation, inner: seq<Inner>)
    ensures var (s, outs) := VerifyRun(x, e, inner);
            && s.hashed == Yielded(outs) && s.bytesSeen == Saturated(|s.hashed|) <= e.maxBytes
            && (s.finished <==> SomeFinal(outs))
    decreases |inner|
  {
    if inner != [] {
      var (s, outs) := VerifyRun(x, e, inner[..|inner| - 1]);
      VerifyInvariant(x, e, inner[..|inner| - 1]);
      PollCounts(x, e, s, inner[|inner| - 1]);
      var out := VerifyPoll(x, e, s, inner[|inner| - 1]).1;
      YieldedNext(outs, out);
      SomeFinalNext(outs, out);
    }
  }

  /** Below the largest limit, no run yields more than `maxBytes`. */
  lemma YieldsAreBounded(x: Platform, e: Expectation, inner: seq<Inner>)
    requires e.maxBytes < U64_MAX
    ensures |Yielded(VerifyRun(x, e, inner).1)| <= e.maxBytes
  {
    VerifyInvariant(x, e, inner);
  }

  /** The most bytes one buffer can hold, `isize::MAX`. */
  const BUFFER_MAX: nat := 0x7FFF_FFFF_FFFF_FFFF

  /** Every chunk fits in a buffer. */
  ghost predicate Receivable(inner: seq<Inner>) {
    forall i | 0 <= i < |inner| && inner[i].Chunk? :: |inner[i].bytes| <= BUFFER_MAX
  }

  lemma RunNext(x: Platform, e: Expectation, inner: seq<Inner>, i: Inner)
    ensures var (s, outs) := VerifyRun(x, e, inner);
            var (s', out) := VerifyPoll(x, e, s, i);
            VerifyRun(x, e, inner + [i]) == (s', outs + [out])
  {
    assert (inner + [i])[..|inner|] == inner;
  }

  lemma ChunkPasses(x: Platform, e: Expectation, inner: seq<Inner>, bytes: seq<byte>)
    requires e.maxBytes == U64_MAX && !VerifyRun(x, e, inner).0.finished
    ensures var r := VerifyRun(x, e, inner + [Chunk(bytes)]);
            !r.0.finished && Yielded(r.1) == Yielded(VerifyRun(x, e, inner).1) + bytes
  {
    RunNext(x, e, inner, Chunk(bytes));
    YieldedNext(VerifyRun(x, e, inner).1, Yield(bytes));
  }

  /** With the largest limit the count saturates and refuses nothing: three full buffers exceed it. */
  lemma LargestLimitIsNoLimit(x: Platform, e: Expectation) returns (inner: seq<Inner>)
    requires e.maxBytes == U64_MAX
    ensures Receivable(inner) && |Yielded(VerifyRun(x, e, inner).1)| > e.maxBytes
  {
    var long: seq<byte> := seq(BUFFER_MAX, _ => 0);
    var one, two := [] + [Chunk(long)], [] + [Chunk(long)] + [Chunk(long)];
    inner := two + [Chunk(long)];
    assert VerifyRun(x, e, []) == (FRESH, []);
    ChunkPasses(x, e, [], long);
    ChunkPasses(x, e, one, long);
    ChunkPasses(x, e, two, long);
    assert Receivable(inner);
  }

  /** The limit bounds what is yielded over all runs exactly when it is below the largest number. */
  lemma LimitIsExact(x: Platform, e: Expectation)
    requires e.maxBytes <= U64_MAX
    ensures (forall inner | Receivable(inner) :: |Yielded(VerifyRun(x, e, inner).1)| <= e.maxBytes) <==> e.maxBytes < U64_MAX
  {
    if e.maxBytes < U64_MAX {
      forall inner | Receivable(inner) ensures |Yielded(VerifyRun(x, e, inner).1)| <= e.maxBytes {
        YieldsAreBounded(x, e, inner);
      }
    } else {
      var inner := LargestLimitIsNoLimit(x, e);
    }
  }

  lemma PrefixRun(x: Platform, e: Expectation, inner: seq<Inner>, k: nat)
    requires k <= |inner|
    ensures VerifyRun(x, e, inner).1[..k] == VerifyRun(x, e, inner[..k]).1
    decreases |inner|
  {
    if k < |inner| {
      var init := inner[..|inner| - 1];
      PrefixRun(x, e, init, k);
      assert init[..k] == inner[..k];
    } else {
      TakeAll(inner);
    }
  }

  lemma NextOut(x: Platform, e: Expectation, inner: seq<Inner>, k: nat)
    requires k < |inner|
    ensures VerifyRun(x, e, inner).1[k] == VerifyPoll(x, e, VerifyRun(x, e, inner[..k]).0, inner[k]).1
  {
    PrefixRun(x, e, inner, k + 1);
    assert inner[..k + 1][..k] == inner[..k];
    assert VerifyRun(x, e, inner).1[k] == VerifyRun(x, e, inner[..k + 1]).1[k];
  }

  /** After an error or the end, every poll says that the stream is finished. */
  lemma NothingAfterTheEnd(x: Platform, e: Expectation, inner: seq<Inner>, k: nat, j: nat)
    requires k < j < |inner| && Final(VerifyRun(x, e, inner).1[k])
    ensures VerifyRun(x, e, inner).1[j] == Finished
  {
    PrefixRun(x, e, inner, j);
    VerifyInvariant(x, e, inner[..j]);
    assert VerifyRun(x, e, inner[..j]).1[k] == VerifyRun(x, e, inner).1[k];
    NextOut(x, e, inner, j);
  }

  /** The bytes have the expected digest and, where they are given, the length and the header's digest. */
  ghost predicate Verified(x: Platform, e: Expectation, bytes: seq<byte>) {
    && FormatDigest(x.sha(bytes)) == e.digest
    && (e.contentLength.Some? ==> e.contentLength.value == |bytes|)
    && (e.header.Some? ==> e.header.value == Some(e.digest))
  }

  /** The digest and the header match, and the length does as far as the count tells. */
  ghost predicate Checked(x: Platform, e: Expectation, bytes: seq<byte>) {
    && FormatDigest(x.sha(bytes)) == e.digest
    && (e.contentLength.Some? ==> e.contentLength.value == Saturated(|bytes|))
    && (e.header.Some? ==> e.header.value == Some(e.digest))
  }

  /** A stream that ends without an error has passed every check on exactly what it yielded. */
  lemma {:induction false} CleanEndIsChecked(x: Platform, e: Expectation, inner: seq<Inner>, k: nat)
    requires Acceptable(e) && k < |inner|
    requires VerifyRun(x, e, inner).1[k] == Finished && Clean(VerifyRun(x, e, inner).1[..k])
    ensures exists j | 0 <= j <= k :: inner[j] == End && Checked(x, e, Yielded(VerifyRun(x, e, inner).1[..j]))
    ensures Checked(x, e, Yielded(VerifyRun(x, e, inner).1[..k]))
    decreases k
  {
    var outs := VerifyRun(x, e, inner).1;
    PrefixRun(x, e, inner, k);
    VerifyInvariant(x, e, inner[..k]);
    NextOut(x, e, inner, k);
    var s := VerifyRun(x, e, inner[..k]).0;
    if s.finished {
      var j :| 0 <= j < k && Final(outs[..k][j]);
      assert outs[j] == Finished && outs[..k][..j] == outs[..j];
      forall i | 0 <= i < j ensures !outs[..j][i].Fail? { assert outs[..k][i] == outs[i]; }
      CleanEndIsChecked(x, e, inner, j);
      NoYieldsBetween(x, e, inner, j, k);
    }
  }

  /** For every run under 2^64 bytes, and for every run under any smaller limit, that is what was asked for. */
  lemma CleanEndIsVerified(x: Platform, e: Expectation, inner: seq<Inner>, k: nat)
    requires Acceptable(e) && k < |inner|
    requires VerifyRun(x, e, inner).1[k] == Finished && Clean(VerifyRun(x, e, inner).1[..k])
    requires e.maxBytes < U64_MAX || |Yielded(VerifyRun(x, e, inner).1[..k])| < U64_LIMIT
    ensures Verified(x, e, Yielded(VerifyRun(x, e, inner).1[..k]))
  {
    CleanEndIsChecked(x, e, inner, k);
    PrefixRun(x, e, inner, k);
    if e.maxBytes < U64_MAX { YieldsAreBounded(x, e, inner[..k]); }
  }

  lemma {:induction false} NoYieldsBetween(x: Platform, e: Expectation, inner: seq<Inner>, j: nat, k: nat)
    requires j < k <= |inner| && Final(VerifyRun(x, e, inner).1[j])
    ensures Yielded(VerifyRun(x, e, inner).1[..k]) == Yielded(VerifyRun(x, e, inner).1[..j])
    decreases k
  {
    var outs := VerifyRun(x, e, inner).1;
    TakeNext(outs, k - 1);
    YieldedNext(outs[..k - 1], outs[k - 1]);
    if j < k - 1 {
      NothingAfterTheEnd(x, e, inner, j, k - 1);
      NoYieldsBetween(x, e, inner, j, k - 1);
    }
  }

  /** Every chunk of a blob that is what was asked for passes through, and the stream ends cleanly. */
  lemma {:induction false} GoodBlobPasses(x: Platform, e: Expectation, chunks: seq<seq<byte>>)
    requires e.maxBytes <= U64_MAX && |Joined(chunks)| <= e.maxBytes
    ensures var (s, outs) := VerifyRun(x, e, Chunks(chunks));
            s == Verifying(|Joined(chunks)|, Joined(chunks), false) && outs == Yields(chunks)
    decreases |chunks|
  {
    if chunks == [] {
      assert Chunks(chunks) == [];
    } else {
      var init, last := chunks[..|chunks| - 1], chunks[|chunks| - 1];
      assert Chunks(chunks)[..|chunks| - 1] == Chunks(init);
      GoodBlobPasses(x, e, init);
    }
  }

  function Joined(chunks: seq<seq<byte>>): seq<byte> {
    if chunks == [] then [] else Joined(chunks[..|chunks| - 1]) + chunks[|chunks| - 1]
  }

  function Chunks(chunks: seq<seq<byte>>): seq<Inner> {
    seq(|chunks|, i requires 0 <= i < |chunks| => Chunk(chunks[i]))
  }

  function Yields(chunks: seq<seq<byte>>): seq<Outer> {
    seq(|chunks|, i requires 0 <= i < |chunks| => Yield(chunks[i]))
  }

  /** At the end of such a blob the stream finishes exactly when the blob is what was asked for. */
  lemma EndsCleanlyIffVerified(x: Platform, e: Expectation, chunks: seq<seq<byte>>)
    requires Acceptable(e) && |Joined(chunks)| <= e.maxBytes
    ensures VerifyRun(x, e, Chunks(chunks) + [End]).1 == Yields(chunks) + [Finished] <==> Verified(x, e, Joined(chunks))
  {
    var inner := Chunks(chunks) + [End];
    assert inner[..|inner| - 1] == Chunks(chunks);
    GoodBlobPasses(x, e, chunks);
    var out := Verdict(x, e, |Joined(chunks)|, Joined(chunks));
    assert VerifyRun(x, e, inner).1 == Yields(chunks) + [out];
    assert (Yields(chunks) + [out])[|chunks|] == out && (Yields(chunks) + [Finished])[|chunks|] == Finished;
  }

  /** So far the wrapped stream has only paused or given chunks within the limit. */
  ghost predicate Flowing(e: Expectation, inner: seq<Inner>) {
    && (forall i | 0 <= i < |inner| :: inner[i].Pending? || inner[i].Chunk?)
    && Saturated(|BytesOf(inner)|) <= e.maxBytes
  }

  lemma {:induction false} BytesOfNext(items: seq<Inner>, i: Inner)
    ensures BytesOf(items + [i]) == BytesOf(items) + (if i.Chunk? then i.bytes else [])
  {
    if items == [] {
      assert [] + [i] == [i];
    } else {
      assert (items + [i])[1..] == items[1..] + [i];
      BytesOfNext(items[1..], i);
    }
  }

  /** Chunks pass through and pauses show, whatever is found at the end. */
  lemma {:induction false} FlowPasses(x: Platform, e: Expectation, inner: seq<Inner>)
    requires Flowing(e, inner)
    ensures var (s, outs) := VerifyRun(x, e, inner);
            && s == Verifying(Saturated(|BytesOf(inner)|), BytesOf(inner), false)
            && forall i | 0 <= i < |inner| :: outs[i] == if inner[i].Chunk? then Yield(inner[i].bytes) else NotReady
    decreases |inner|
  {
    if inner != [] {
      var n := |inner| - 1;
      var init := inner[..n];
      assert inner == init + [inner[n]];
      BytesOfNext(init, inner[n]);
      FlowPasses(x, e, init);
      assert BytesOf(init) + [] == BytesOf(init);
    }
  }

  /** What the poll that stops the flow reports, with the length tested first and the header second. */
  lemma FirstFaultIsReported(x: Platform, e: Expectation, inner: seq<Inner>, k: nat)
    requires Acceptable(e) && k < |inner| && Flowing(e, inner[..k])
    ensures var out, body := VerifyRun(x, e, inner).1[k], BytesOf(inner[..k]);
            match inner[k]
            case Pending => out == NotReady
            case Chunk(bytes) =>
              out == if Saturated(|body + bytes|) > e.maxBytes then Fail(SizeLimitExceeded) else Yield(bytes)
            case Failure => out == Fail(Transport)
            case End =>
              var actual := FormatDigest(x.sha(body));
              var badLength := e.contentLength.Some? && e.contentLength.value != Saturated(|body|);
              var badHeader := e.header.Some? && e.header.value != Some(actual);
              && (out == Fail(SizeMismatch) <==> badLength)
              && (out == Fail(HeaderDigestMismatch) <==> !badLength && badHeader)
              && (out == Fail(DigestMismatch) <==> !badLength && !badHeader && actual != e.digest)
              && (out == Finished <==> Checked(x, e, body)) && Final(out)
  {
    FlowPasses(x, e, inner[..k]);
    NextOut(x, e, inner, k);
  }

  // --- Hashing ---------------------------------------------------------------------------------

  datatype Terminal = Complete(digest: string) | Failed | Aborted

  datatype Hashing = Hashing(hashed: seq<byte>, bytesStreamed: nat, terminal: Option<Terminal>)

  datatype HashEvent = Poll(inner: Inner) | Drop

  /** `OnceLock::set`. */
  function SetOnce(t: Option<Terminal>, v: Terminal): Option<Terminal> {
    if t.Some? then t else Some(v)
  }

  function HashStep(x: Platform, s: Hashing, ev: HashEvent): (Hashing, Outer) {
    match ev
    case Drop => (s.(terminal := SetOnce(s.terminal, Aborted)), NotReady)
    case Poll(inner) =>
      if s.terminal.Some? then (s, Finished)
      else
        match inner
        case Pending => (s, NotReady)
        case Chunk(bytes) => (s.(hashed := s.hashed + bytes, bytesStreamed := Wrap(s.bytesStreamed + |bytes|)), Yield(bytes))
        case Failure => (s.(terminal := SetOnce(s.terminal, Failed)), Fail(Transport))
        case End => (s.(terminal := SetOnce(s.terminal, Complete(FormatDigest(x.sha(s.hashed))))), Finished)
  }

  class HashingStream {
    const x: Platform
    var hasher: seq<byte>
    var bytesStreamed: nat
    var terminal: Option<Terminal>

    constructor (x: Platform)
      ensures this.x == x && State() == Hashing([], 0, None)
    {
      this.x := x;
      hasher, bytesStreamed, terminal := [], 0, None;
    }

    ghost function State(): Hashing
      reads this
    {
      Hashing(hasher, bytesStreamed, terminal)
    }

    method PollNext(inner: Inner) returns (out: Outer)
      modifies this
      ensures (State(), out) == HashStep(x, old(State()), Poll(inner))
    {
      if terminal.Some? {
        return Finished;
      }
      match inner {
        case Pending => out := NotReady;
        case Chunk(bytes) =>
          hasher, bytesStreamed := hasher + bytes, Wrap(bytesStreamed + |bytes|);
          out := Yield(bytes);
        case Failure =>
          terminal := SetOnce(terminal, Failed);
          out := Fail(Transport);
        case End =>
          terminal := SetOnce(terminal, Complete(FormatDigest(x.sha(hasher))));
          out := Finished;
      }
    }

    method DropStream()
      modifies this
      ensures State() == HashStep(x, old(State()), Drop).0
    {
      terminal := SetOnce(terminal, Aborted);
    }

    /** `StreamHashState::digest`. */
    method Digest() returns (d: Option<string>)
      ensures d.Some? <==> terminal.Some? && terminal.value.Complete?
      ensures d.Some? ==> d.value == terminal.value.digest
    {
      d := match terminal
      case Some(Complete(digest)) => Some(digest)
      case _ => None;
    }
  }

  function HashRun(x: Platform, events: seq<HashEvent>): (r: (Hashing, seq<Outer>))
    ensures |r.1| == |events|
  {
    if events == [] then (Hashing([], 0, None), [])
    else
      var (s, outs) := HashRun(x, events[..|events| - 1]);
      var (s', out) := HashStep(x, s, events[|events| - 1]);
      (s', outs + [out])
  }

  lemma StepCovers(x: Platform, s: Hashing, ev: HashEvent)
    requires s.bytesStreamed == Wrap(|s.hashed|)
    ensures var (s', out) := HashStep(x, s, ev);
            s'.bytesStreamed == Wrap(|s'.hashed|) && s'.hashed == s.hashed + (if out.Yield? then out.bytes else [])
  {
    if s.terminal.None? && ev.Poll? && ev.inner.Chunk? {
      WrapSum(|s.hashed|, |ev.inner.bytes|);
    } else {
      assert s.hashed + [] == s.hashed;
    }
  }

  lemma {:induction false} HashCovers(x: Platform, events: seq<HashEvent>)
    ensures var (s, outs) := HashRun(x, events);
            s.hashed == Yielded(outs) && s.bytesStreamed == Wrap(|s.hashed|)
    decreases |events|
  {
    if events != [] {
      var n := |events| - 1;
      var (s, outs) := HashRun(x, events[..n]);
      HashCovers(x, events[..n]);
      StepCovers(x, s, events[n]);
      YieldedNext(outs, HashStep(x, s, events[n]).1);
    }
  }

  /** The wrapped stream ended at some poll, with no error before. */
  ghost predicate EndedCleanly(events: seq<HashEvent>, outs: seq<Outer>) {
    |events| == |outs| && exists k | 0 <= k < |events| :: EndsAt(events, outs, k)
  }

  ghost predicate EndsAt(events: seq<HashEvent>, outs: seq<Outer>, k: nat)
    requires k < |events| == |outs|
  {
    events[k] == Poll(End) && outs[k] == Finished && Clean(outs[..k])
  }

  lemma StillEnded(events: seq<HashEvent>, outs: seq<Outer>, ev: HashEvent, out: Outer)
    requires EndedCleanly(events, outs)
    ensures EndedCleanly(events + [ev], outs + [out])
  {
    var k :| 0 <= k < |events| && EndsAt(events, outs, k);
    assert (outs + [out])[..k] == outs[..k];
    assert EndsAt(events + [ev], outs + [out], k);
  }

  lemma EndsNow(events: seq<HashEvent>, outs: seq<Outer>)
    requires |events| == |outs| && Clean(outs)
    ensures EndedCleanly(events + [Poll(End)], outs + [Finished])
  {
    assert (outs + [Finished])[..|outs|] == outs;
    assert EndsAt(events + [Poll(End)], outs + [Finished], |outs|);
  }

  lemma {:induction false} CompleteMeansEnded(x: Platform, events: seq<HashEvent>)
    ensures var (s, outs) := HashRun(x, events);
            && (s.terminal.Some? && s.terminal.value.Complete? ==>
                  s.terminal.value.digest == FormatDigest(x.sha(s.hashed)) && EndedCleanly(events, outs))
            && (s.terminal.None? ==> Clean(outs))
    decreases |events|
  {
    if events != [] {
      var n := |events| - 1;
      var init := events[..n];
      var (s, outs) := HashRun(x, init);
      CompleteMeansEnded(x, init);
      var out := HashStep(x, s, events[n]).1;
      assert events == init + [events[n]];
      if s.terminal.Some? && s.terminal.value.Complete? {
        StillEnded(init, outs, events[n], out);
      } else if s.terminal.None? && events[n] == Poll(End) {
        EndsNow(init, outs);
      }
    }
  }

  /** A digest is there only once the wrapped stream has ended, and it is that of all that was yielded. */
  lemma DigestOnlyAfterEnd(x: Platform, events: seq<HashEvent>)
    ensures var (s, outs) := HashRun(x, events);
            s.terminal.Some? && s.terminal.value.Complete? ==>
              s.terminal.value.digest == FormatDigest(x.sha(Yielded(outs))) && EndedCleanly(events, outs)
  {
    HashCovers(x, events);
    CompleteMeansEnded(x, events);
  }

  /** A terminal state never changes, and nothing is yielded after it. */
  lemma {:induction false} TerminalIsFinal(x: Platform, events: seq<HashEvent>, k: nat)
    requires k <= |events| && HashRun(x, events[..k]).0.terminal.Some?
    ensures HashRun(x, events).0.terminal == HashRun(x, events[..k]).0.terminal
    ensures Yielded(HashRun(x, events).1) == Yielded(HashRun(x, events[..k]).1)
    decreases |events|
  {
    if k == |events| {
      TakeAll(events);
    } else {
      var init := events[..|events| - 1];
      assert init[..k] == events[..k];
      TerminalIsFinal(x, init, k);
      var (s, outs) := HashRun(x, init);
      var (_, out) := HashStep(x, s, events[|events| - 1]);
      YieldedNext(outs, out);
    }
  }

  /** The events that decide how a stream ends; only the first of them counts. */
  predicate Decides(ev: HashEvent) {
    ev == Drop || ev == Poll(End) || ev == Poll(Failure)
  }

  predicate Undecided(events: seq<HashEvent>) {
    forall i | 0 <= i < |events| :: !Decides(events[i])
  }

  /** The bytes of all chunks the wrapped stream gave. */
  function Given(events: seq<HashEvent>): seq<byte> {
    if events == [] then []
    else
      var last := events[|events| - 1];
      Given(events[..|events| - 1]) + (if last.Poll? && last.inner.Chunk? then last.inner.bytes else [])
  }

  /** Every chunk is passed on, and nothing else is yielded. */
  ghost predicate PassedOn(events: seq<HashEvent>, outs: seq<Outer>) {
    && |events| == |outs|
    && forall i | 0 <= i < |events| ::
         outs[i] == if events[i].Poll? && events[i].inner.Chunk? then Yield(events[i].inner.bytes) else NotReady
  }

  lemma {:induction false} UndecidedPasses(x: Platform, events: seq<HashEvent>)
    requires Undecided(events)
    ensures var (s, outs) := HashRun(x, events);
            s.terminal.None? && s.hashed == Given(events) && PassedOn(events, outs)
    decreases |events|
  {
    if events != [] {
      var n := |events| - 1;
      var (_, outs) := HashRun(x, events[..n]);
      UndecidedPasses(x, events[..n]);
      assert !Decides(events[n]);
      forall i | 0 <= i < n ensures events[..n][i] == events[i] && HashRun(x, events).1[i] == outs[i] {
      }
    }
  }

  /** How a stream ends whose first deciding event comes after the other events. */
  function Ending(x: Platform, before: seq<HashEvent>, ev: HashEvent): (t: Terminal)
    requires Decides(ev)
  {
    match ev
    case Drop => Aborted
    case Poll(Failure) => Failed
    case Poll(_) => Complete(FormatDigest(x.sha(Given(before))))
  }

  lemma {:induction false} NothingAfterTerminal(x: Platform, events: seq<HashEvent>, k: nat, i: nat)
    requires k <= i < |events| && HashRun(x, events[..k]).0.terminal.Some?
    ensures !HashRun(x, events).1[i].Yield? && (events[i].Poll? ==> HashRun(x, events).1[i] == Finished)
    decreases |events|
  {
    var n := |events| - 1;
    var init := events[..n];
    assert init[..k] == events[..k];
    if i < n {
      NothingAfterTerminal(x, init, k, i);
    } else {
      TerminalIsFinal(x, init, k);
    }
  }

  /**
   The first end, failure or drop decides the terminal state, and the digest is that of the
   chunks given before it. Until then every chunk is passed on, and afterwards nothing is.
   */
  lemma FirstEndDecides(x: Platform, events: seq<HashEvent>, k: nat)
    requires k < |events| && Undecided(events[..k]) && Decides(events[k])
    ensures var (s, outs) := HashRun(x, events);
            && s.terminal == Some(Ending(x, events[..k], events[k])) && PassedOn(events[..k], outs[..k])
            && outs[k] == (match events[k] case Drop => NotReady case Poll(Failure) => Fail(Transport) case Poll(_) => Finished)
            && forall i | k < i < |events| :: !outs[i].Yield? && (events[i].Poll? ==> outs[i] == Finished)
  {
    var upto := events[..k + 1];
    assert upto[..k] == events[..k] && upto[k] == events[k];
    UndecidedPasses(x, events[..k]);
    TerminalIsFinal(x, events, k + 1);
    OutputsStay(x, events, k);
    OutputsStay(x, events, k + 1);
    forall i | k < i < |events| ensures !HashRun(x, events).1[i].Yield? && (events[i].Poll? ==> HashRun(x, events).1[i] == Finished) {
      NothingAfterTerminal(x, events, k + 1, i);
    }
  }

  lemma {:induction false} OutputsStay(x: Platform, events: seq<HashEvent>, k: nat)
    requires k <= |events|
    ensures HashRun(x, events).1[..k] == HashRun(x, events[..k]).1
    decreases |events|
  {
    if k == |events| {
      TakeAll(events);
    } else {
      var init := events[..|events| - 1];
      assert init[..k] == events[..k];
      OutputsStay(x, init, k);
    }
  }

  /** A stream that nothing has ended has no terminal state, and the other way round. */
  lemma TerminalIffDecided(x: Platform, events: seq<HashEvent>)
    ensures HashRun(x, events).0.terminal.None? <==> Undecided(events)
  {
    if Undecided(events) {
      UndecidedPasses(x, events);
    } else {
      var k := FirstDeciding(events);
      FirstEndDecides(x, events, k);
    }
  }

  lemma {:induction false} FirstDeciding(events: seq<HashEvent>) returns (k: nat)
    requires !Undecided(events)
    ensures k < |events| && Undecided(events[..k]) && Decides(events[k])
    decreases |events|
  {
    var n := |events| - 1;
    if Undecided(events[..n]) {
      assert forall i | 0 <= i < n :: events[..n][i] == events[i];
      k := n;
    } else {
      k := FirstDeciding(events[..n]);
      assert events[..n][..k] == events[..k];
    }
  }

  // --- Bounded buffering -----------------------------------------------------------------------

  datatype Collected = Body(bytes: seq<byte>) | Broken | TooLarge

  function Collect(max: nat, items: seq<Inner>, body: seq<byte>): Collected
    decreases |items|
  {
    if items == [] then Body(body)
    else if !items[0].Chunk? then Broken
    else if SaturatingAdd(|body|, |items[0].bytes|) > max then TooLarge
    else Collect(max, items[1..], body + items[0].bytes)
  }

  /** `collect_limited` on the items of a body: the limit is checked before a chunk is appended. */
  method CollectLimited(max: nat, items: seq<Inner>) returns (r: Collected)
    ensures r == Collect(max, items, [])
  {
    var body: seq<byte> := [];
    for k := 0 to |items|
      invariant Collect(max, items[k..], body) == Collect(max, items, [])
    {
      assert items[k..][1..] == items[k + 1..];
      if !items[k].Chunk? {
        return Broken;
      }
      var total := SaturatingAdd(|body|, |items[k].bytes|);
      if total > max {
        return TooLarge;
      }
      body := body + items[k].bytes;
    }
    r := Body(body);
  }

  /** The bytes of the chunks. */
  function BytesOf(items: seq<Inner>): seq<byte> {
    if items == [] then [] else (if items[0].Chunk? then items[0].bytes else []) + BytesOf(items[1..])
  }

  predicate AllChunks(items: seq<Inner>) {
    forall i | 0 <= i < |items| :: items[i].Chunk?
  }

  lemma {:induction false} CollectedIs(max: nat, items: seq<Inner>, body: seq<byte>)
    requires max <= U64_MAX
    ensures var r := Collect(max, items, body);
            && (r.Body? ==> AllChunks(items) && r.bytes == body + BytesOf(items))
            && (r.Body? && max < U64_MAX && |body| <= max ==> |r.bytes| <= max)
            && (r == Broken ==> !AllChunks(items)) && (r == TooLarge ==> |body| + |BytesOf(items)| > max)
            && (AllChunks(items) && |body| + |BytesOf(items)| <= max ==> r.Body?)
    decreases |items|
  {
    if items == [] {
      assert body + [] == body;
    } else if items[0].Chunk? {
      CollectedIs(max, items[1..], body + items[0].bytes);
      Assoc(body, items[0].bytes, BytesOf(items[1..]));
      assert AllChunks(items) <==> AllChunks(items[1..]) by {
        assert forall i | 0 < i < |items| :: items[i] == items[1..][i - 1];
      }
    }
  }

  /**
   The whole body is returned exactly when no item fails and it is within the limit; at the
   largest limit this holds for every body under 2^64 bytes.
   */
  lemma CollectIsExact(max: nat, items: seq<Inner>)
    requires max <= U64_MAX && (max < U64_MAX || |BytesOf(items)| <= U64_MAX)
    ensures var r := Collect(max, items, []);
            && (r.Body? <==> AllChunks(items) && |BytesOf(items)| <= max)
            && (r.Body? ==> r.bytes == BytesOf(items))
            && (r == Broken ==> exists i | 0 <= i < |items| :: !items[i].Chunk?)
            && (r == TooLarge ==> |BytesOf(items)| > max)
  {
    CollectedIs(max, items, []);
    assert [] + BytesOf(items) == BytesOf(items);
  }
}
