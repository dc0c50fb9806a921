/**
 The canonical byte encoding behind every Merkle hash: fixed-width big-endian numbers,
 length-prefixed strings, tagged options and counted lists. Every form is self-delimiting:
 a string of bytes that starts with one form determines the form and what follows it.
 */
module Encoding {
  import opened Basics
  import opened Text
  import opened Types

  /** `n` big-endian bytes of a number. */
  function BigEndian(v: nat, n: nat): (r: seq<byte>)
    ensures |r| == n
  {
    if n == 0 then [] else BigEndian(v / 256, n - 1) + [v % 256]
  }

  function Power256(n: nat): nat {
    if n == 0 then 1 else 256 * Power256(n - 1)
  }

  function U16(v: nat): (r: seq<byte>)
    ensures |r| == 2
  {
    BigEndian(v, 2)
  }

  function U64(v: nat): (r: seq<byte>)
    ensures |r| == 8
  {
    BigEndian(v, 8)
  }

  function Bytes(b: seq<byte>): seq<byte> {
    U64(|b|) + b
  }

  function Str(s: string): seq<byte> {
    Bytes(Utf8(s))
  }

  function OptDigest(o: Option<Digest>): seq<byte> {
    match o
    case None => [0]
    case Some(d) => [1] + d
  }

  function OptStr(o: Option<string>): seq<byte> {
    match o
    case None => [0]
    case Some(s) => [1] + Str(s)
  }

  function OptU64(o: Option<nat>): seq<byte> {
    match o
    case None => [0]
    case Some(n) => [1] + U64(n)
  }

  function StrAll(v: seq<string>): seq<byte> {
    if v == [] then [] else Str(v[0]) + StrAll(v[1..])
  }

  function StrVec(v: seq<string>): seq<byte> {
    U64(|v|) + StrAll(v)
  }

  // --- The encoder -----------------------------------------------------------------------------

  class CanonicalEncoder {
    var bytes: seq<byte>

    /** Every hash input starts with its domain. */
    constructor (domain: string)
      ensures bytes == Str(domain)
    {
      bytes := Str(domain);
    }

    method PutRaw(value: seq<byte>)
      modifies this
      ensures bytes == old(bytes) + value
    {
      bytes := bytes + value;
    }

    method PutU8(value: byte)
      modifies this
      ensures bytes == old(bytes) + [value]
    {
      PutRaw([value]);
    }

    method PutU16(value: nat)
      modifies this
      ensures bytes == old(bytes) + U16(value)
    {
      PutRaw(U16(value));
    }

    method PutU64(value: nat)
      modifies this
      ensures bytes == old(bytes) + U64(value)
    {
      PutRaw(U64(value));
    }

    method PutBytes(value: seq<byte>)
      modifies this
      ensures bytes == old(bytes) + Bytes(value)
    {
      PutU64(|value|);
      PutRaw(value);
    }

    method PutString(value: string)
      modifies this
      ensures bytes == old(bytes) + Str(value)
    {
      PutBytes(Utf8(value));
    }

    method PutOptDigest(value: Option<Digest>)
      modifies this
      ensures bytes == old(bytes) + OptDigest(value)
    {
      if value.Some? {
        PutU8(1);
        PutRaw(value.value);
      } else {
        PutU8(0);
      }
    }

    method PutOptString(value: Option<string>)
      modifies this
      ensures bytes == old(bytes) + OptStr(value)
    {
      if value.Some? {
        PutU8(1);
        PutString(value.value);
        Assoc(old(bytes), [1], Str(value.value));
      } else {
        PutU8(0);
      }
    }

    method PutOptU64(value: Option<nat>)
      modifies this
      ensures bytes == old(bytes) + OptU64(value)
    {
      if value.Some? {
        PutU8(1);
        PutU64(value.value);
      } else {
        PutU8(0);
      }
    }

    method PutStringVec(values: seq<string>)
      modifies this
      ensures bytes == old(bytes) + StrVec(values)
    {
      PutU64(|values|);
      ghost var start := bytes;
      for i := 0 to |values|
        invariant bytes == start + StrAll(values[..i])
      {
        StrAllAppends(values[..i], values[i]);
        TakeNext(values, i);
        Assoc(start, StrAll(values[..i]), Str(values[i]));
        PutString(values[i]);
      }
      TakeAll(values);
      Assoc(old(bytes), U64(|values|), StrAll(values));
    }
  }

  lemma {:induction false} StrAllAppends(v: seq<string>, s: string)
    ensures StrAll(v + [s]) == StrAll(v) + Str(s)
  {
    if v == [] {
      assert v + [s] == [s];
      assert StrAll([s]) == Str(s) + StrAll([]);
    } else {
      assert (v + [s])[1..] == v[1..] + [s];
      StrAllAppends(v[1..], s);
      Assoc(Str(v[0]), StrAll(v[1..]), Str(s));
    }
  }

  // --- Unique reading --------------------------------------------------------------------------

  lemma {:induction false} BigEndianInjective(v: nat, w: nat, n: nat)
    requires v < Power256(n) && w < Power256(n) && BigEndian(v, n) == BigEndian(w, n)
    ensures v == w
  {
    if n > 0 {
      var a, b := BigEndian(v / 256, n - 1), BigEndian(w / 256, n - 1);
      assert a == BigEndian(v, n)[..n - 1] == BigEndian(w, n)[..n - 1] == b;
      assert v % 256 == BigEndian(v, n)[n - 1] == BigEndian(w, n)[n - 1] == w % 256;
      BigEndianInjective(v / 256, w / 256, n - 1);
    }
  }

  lemma Power256Is64()
    ensures Power256(8) == U64_LIMIT && Power256(2) == 0x1_0000
  {
    assert Power256(2) == 0x1_0000 && Power256(4) == 0x1_0000_0000;
    assert Power256(6) == 0x1_0000_0000_0000;
  }

  lemma U64Injective(v: nat, w: nat)
    requires v < U64_LIMIT && w < U64_LIMIT && U64(v) == U64(w)
    ensures v == w
  {
    Power256Is64();
    BigEndianInjective(v, w, 8);
  }

  lemma U16Injective(v: nat, w: nat)
    requires v < 0x1_0000 && w < 0x1_0000 && U16(v) == U16(w)
    ensures v == w
  {
    Power256Is64();
    BigEndianInjective(v, w, 2);
  }

  /** Two parts of one length in front of equal strings are equal. */
  lemma SplitFixed(a: seq<byte>, r: seq<byte>, b: seq<byte>, s: seq<byte>)
    requires |a| == |b| && a + r == b + s
    ensures a == b && r == s
  {
    assert a == (a + r)[..|a|] && b == (b + s)[..|a|];
    assert r == (a + r)[|a|..] && s == (b + s)[|a|..];
  }

  lemma SplitU64(v: nat, r: seq<byte>, w: nat, s: seq<byte>)
    requires v < U64_LIMIT && w < U64_LIMIT && U64(v) + r == U64(w) + s
    ensures v == w && r == s
  {
    SplitFixed(U64(v), r, U64(w), s);
    U64Injective(v, w);
  }

  lemma SplitBytes(a: seq<byte>, r: seq<byte>, b: seq<byte>, s: seq<byte>)
    requires |a| < U64_LIMIT && |b| < U64_LIMIT && Bytes(a) + r == Bytes(b) + s
    ensures a == b && r == s
  {
    Assoc(U64(|a|), a, r);
    Assoc(U64(|b|), b, s);
    SplitU64(|a|, a + r, |b|, b + s);
    SplitFixed(a, r, b, s);
  }

  /** The byte length of a Rust string is a `usize`. */
  predicate Sized(s: string) {
    |Utf8(s)| < U64_LIMIT
  }

  lemma SplitStr(a: string, r: seq<byte>, b: string, s: seq<byte>)
    requires Sized(a) && Sized(b) && Str(a) + r == Str(b) + s
    ensures a == b && r == s
  {
    SplitBytes(Utf8(a), r, Utf8(b), s);
    Utf8Injective(a, b);
  }

  lemma SplitTag(t: byte, r: seq<byte>, u: byte, s: seq<byte>)
    requires [t] + r == [u] + s
    ensures t == u && r == s
  {
    SplitFixed([t], r, [u], s);
    assert [t][0] == [u][0];
  }

  lemma SplitOptStr(a: Option<string>, r: seq<byte>, b: Option<string>, s: seq<byte>)
    requires (a.Some? ==> Sized(a.value)) && (b.Some? ==> Sized(b.value)) && OptStr(a) + r == OptStr(b) + s
    ensures a == b && r == s
  {
    var ra := if a.Some? then Str(a.value) + r else r;
    var rb := if b.Some? then Str(b.value) + s else s;
    if a.Some? { Assoc([1], Str(a.value), r); }
    if b.Some? { Assoc([1], Str(b.value), s); }
    SplitTag(if a.Some? then 1 else 0, ra, if b.Some? then 1 else 0, rb);
    if a.Some? { SplitStr(a.value, r, b.value, s); }
  }

  lemma SplitOptU64(a: Option<nat>, r: seq<byte>, b: Option<nat>, s: seq<byte>)
    requires (a.Some? ==> a.value < U64_LIMIT) && (b.Some? ==> b.value < U64_LIMIT) && OptU64(a) + r == OptU64(b) + s
    ensures a == b && r == s
  {
    var ra := if a.Some? then U64(a.value) + r else r;
    var rb := if b.Some? then U64(b.value) + s else s;
    if a.Some? { Assoc([1], U64(a.value), r); }
    if b.Some? { Assoc([1], U64(b.value), s); }
    SplitTag(if a.Some? then 1 else 0, ra, if b.Some? then 1 else 0, rb);
    if a.Some? { SplitU64(a.value, r, b.value, s); }
  }

  lemma SplitOptDigest(a: Option<Digest>, r: seq<byte>, b: Option<Digest>, s: seq<byte>)
    requires OptDigest(a) + r == OptDigest(b) + s
    ensures a == b && r == s
  {
    var ra := if a.Some? then a.value + r else r;
    var rb := if b.Some? then b.value + s else s;
    if a.Some? { Assoc([1], a.value, r); }
    if b.Some? { Assoc([1], b.value, s); }
    SplitTag(if a.Some? then 1 else 0, ra, if b.Some? then 1 else 0, rb);
    if a.Some? { SplitFixed(a.value, r, b.value, s); }
  }

  predicate AllSized(v: seq<string>) {
    |v| < U64_LIMIT && forall i | 0 <= i < |v| :: Sized(v[i])
  }

  lemma {:induction false} SplitStrAll(v: seq<string>, r: seq<byte>, w: seq<string>, s: seq<byte>)
    requires AllSized(v) && AllSized(w) && |v| == |w| && StrAll(v) + r == StrAll(w) + s
    ensures v == w && r == s
  {
    if v == [] {
      assert [] + r == r && [] + s == s;
    } else {
      Assoc(Str(v[0]), StrAll(v[1..]), r);
      Assoc(Str(w[0]), StrAll(w[1..]), s);
      SplitStr(v[0], StrAll(v[1..]) + r, w[0], StrAll(w[1..]) + s);
      SplitStrAll(v[1..], r, w[1..], s);
      assert v == [v[0]] + v[1..] && w == [w[0]] + w[1..];
    }
  }

  lemma SplitStrVec(v: seq<string>, r: seq<byte>, w: seq<string>, s: seq<byte>)
    requires AllSized(v) && AllSized(w) && StrVec(v) + r == StrVec(w) + s
    ensures v == w && r == s
  {
    Assoc(U64(|v|), StrAll(v), r);
    Assoc(U64(|w|), StrAll(w), s);
    SplitU64(|v|, StrAll(v) + r, |w|, StrAll(w) + s);
    SplitStrAll(v, r, w, s);
  }
}
