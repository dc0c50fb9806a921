/**
 The name matcher of the selection engine: an iterative glob matcher with greedy
 last-star backtracking over bytes, and the declarative meaning of a glob.
 */
module Glob {
  import opened Basics

  const STAR: byte := 42
  const QUESTION: byte := 63

  /** One pattern byte, not a star, against one text byte. */
  predicate Fits(p: byte, t: byte) {
    p == QUESTION || p == t
  }

  /** The meaning of a glob: `*` stands for any run of bytes, `?` for one byte. */
  predicate Matches(p: seq<byte>, t: seq<byte>)
    decreases |p|, |t|
  {
    if p == [] then t == []
    else if p[0] == STAR then Matches(p[1..], t) || (t != [] && Matches(p, t[1..]))
    else t != [] && Fits(p[0], t[0]) && Matches(p[1..], t[1..])
  }

  // --- The matcher's state machine -------------------------------------------

  /** Last star seen, as a number that grows when a later star is recorded. */
  function Mark(star: Option<nat>): int {
    if star.Some? then star.value else -1
  }

  predicate State(p: seq<byte>, t: seq<byte>, pi: nat, ti: nat, star: Option<nat>, mi: nat) {
    && pi <= |p| && ti <= |t| && mi <= ti
    && (star.Some? ==>
          && star.value < pi && p[star.value] == STAR
          && pi - (star.value + 1) == ti - mi)
  }

  predicate AllStars(p: seq<byte>) {
    forall i | 0 <= i < |p| :: p[i] == STAR
  }

  /** The value the matcher returns when it goes on from the given state. */
  predicate Run(p: seq<byte>, t: seq<byte>, pi: nat, ti: nat, star: Option<nat>, mi: nat)
    requires State(p, t, pi, ti, star, mi)
    decreases |p| - Mark(star), |t| - mi, |t| - ti
  {
    if ti == |t| then AllStars(p[pi..])
    else if pi < |p| && Fits(p[pi], t[ti]) then Run(p, t, pi + 1, ti + 1, star, mi)
    else if pi < |p| && p[pi] == STAR then Run(p, t, pi + 1, ti, Some(pi), ti)
    else if star.Some? then Run(p, t, star.value + 1, mi + 1, star, mi + 1)
    else false
  }

  predicate Wildcard(p: seq<byte>, t: seq<byte>) {
    Run(p, t, 0, 0, None, 0)
  }

  method WildcardMatch(p: seq<byte>, t: seq<byte>) returns (r: bool)
    ensures r == Wildcard(p, t)
    ensures STAR !in p || STAR !in t ==> r == Matches(p, t)
    ensures r ==> Matches(p, t)
  {
    MatcherIsSound(p, t);
    if STAR !in p || STAR !in t {
      MatcherIsExact(p, t);
    }
    var pi: nat, ti: nat := 0, 0;
    var star: Option<nat> := None;
    var mi: nat := 0;
    while ti < |t|
      invariant State(p, t, pi, ti, star, mi)
      invariant Run(p, t, pi, ti, star, mi) == Wildcard(p, t)
      decreases |p| - Mark(star), |t| - mi, |t| - ti
    {
      if pi < |p| && (p[pi] == QUESTION || p[pi] == t[ti]) {
        pi, ti := pi + 1, ti + 1;
      } else if pi < |p| && p[pi] == STAR {
        star, mi := Some(pi), ti;
        pi := pi + 1;
      } else if star.Some? {
        pi := star.value + 1;
        mi := mi + 1;
        ti := mi;
      } else {
        return false;
      }
    }
    ghost var tail := p[pi..];
    ghost var from := pi;
    while pi < |p| && p[pi] == STAR
      invariant from <= pi <= |p| && forall i | from <= i < pi :: p[i] == STAR
    {
      pi := pi + 1;
    }
    r := pi == |p|;
    assert pi < |p| ==> tail[pi - from] != STAR;
    assert forall i | 0 <= i < |tail| :: tail[i] == p[from + i];
  }

  // --- Properties of the meaning ---------------------------------------------

  /** A leading star may absorb more text. */
  lemma {:induction false} StarAbsorbs(p: seq<byte>, t: seq<byte>, k: nat)
    requires p != [] && p[0] == STAR && k <= |t| && Matches(p, t[k..])
    ensures Matches(p, t)
  {
    if k == 0 {
      assert t[0..] == t;
    } else {
      assert t[1..][k - 1..] == t[k..];
      StarAbsorbs(p, t[1..], k - 1);
    }
  }

  /** A leading star stands for some run of the text. */
  lemma {:induction false} StarSplits(p: seq<byte>, t: seq<byte>) returns (k: nat)
    requires p != [] && p[0] == STAR && Matches(p, t)
    ensures k <= |t| && Matches(p[1..], t[k..])
    decreases |t|
  {
    if Matches(p[1..], t) {
      k := 0;
      assert t[0..] == t;
    } else {
      var j := StarSplits(p, t[1..]);
      k := j + 1;
      assert t[1..][j..] == t[k..];
    }
  }

  /** A star-free pattern prefix consumes exactly as many bytes. */
  lemma {:induction false} PrefixConsumes(p: seq<byte>, t: seq<byte>, n: nat)
    requires n <= |p| && STAR !in p[..n]
    ensures Matches(p, t) <==>
            n <= |t| && (forall i | 0 <= i < n :: Fits(p[i], t[i])) && Matches(p[n..], t[n..])
    decreases n
  {
    if n == 0 {
      assert p[0..] == p && t[0..] == t;
    } else {
      assert p[..n][0] == p[0];
      if t != [] {
        assert p[1..][..n - 1] == p[..n][1..];
        PrefixConsumes(p[1..], t[1..], n - 1);
        assert p[1..][n - 1..] == p[n..];
        if n <= |t| {
          assert t[1..][n - 1..] == t[n..];
          if (forall i | 0 <= i < n - 1 :: Fits(p[1..][i], t[1..][i])) && Fits(p[0], t[0]) {
            forall i | 0 <= i < n ensures Fits(p[i], t[i]) {
              if i > 0 { assert p[i] == p[1..][i - 1] && t[i] == t[1..][i - 1]; }
            }
          }
          if forall i | 0 <= i < n :: Fits(p[i], t[i]) {
            forall i | 0 <= i < n - 1 ensures Fits(p[1..][i], t[1..][i]) {
              assert Fits(p[i + 1], t[i + 1]);
            }
          }
        }
      }
    }
  }

  /** A pattern prefix that pairs byte by byte may be put back, stars included. */
  lemma {:induction false} PrefixPairs(p: seq<byte>, t: seq<byte>, n: nat)
    requires n <= |p| && n <= |t| && forall i | 0 <= i < n :: Fits(p[i], t[i])
    requires Matches(p[n..], t[n..])
    ensures Matches(p, t)
    decreases n
  {
    if n == 0 {
      assert p[0..] == p && t[0..] == t;
    } else {
      assert p[1..][n - 1..] == p[n..] && t[1..][n - 1..] == t[n..];
      forall i | 0 <= i < n - 1 ensures Fits(p[1..][i], t[1..][i]) {
        assert Fits(p[i + 1], t[i + 1]);
      }
      PrefixPairs(p[1..], t[1..], n - 1);
      assert Fits(p[0], t[0]);
    }
  }

  lemma {:induction false} AllStarsMatch(p: seq<byte>)
    ensures Matches(p, []) <==> AllStars(p)
  {
    if p != [] {
      AllStarsMatch(p[1..]);
      if AllStars(p[1..]) && p[0] == STAR {
        forall i | 0 <= i < |p| ensures p[i] == STAR {
          if i > 0 { assert p[i] == p[1..][i - 1]; }
        }
      }
    }
  }

  // --- The matcher against the meaning ---------------------------------------

  /** What is left to match from a state: the recorded star, if any, may still move. */
  predicate Claim(p: seq<byte>, t: seq<byte>, pi: nat, ti: nat, star: Option<nat>, mi: nat)
    requires State(p, t, pi, ti, star, mi)
  {
    if star.Some? then Matches(p[star.value..], t[mi..]) else Matches(p[pi..], t[ti..])
  }

  /** The bytes between the recorded star and the cursor pair one by one. */
  predicate Paired(p: seq<byte>, t: seq<byte>, pi: nat, ti: nat, star: Option<nat>, mi: nat)
    requires State(p, t, pi, ti, star, mi)
  {
    star.Some? ==> forall j | mi <= j < ti :: Fits(p[star.value + 1 + (j - mi)], t[j])
  }

  lemma PairsBack(p: seq<byte>, t: seq<byte>, pi: nat, ti: nat, star: nat, mi: nat)
    requires State(p, t, pi, ti, Some(star), mi) && Paired(p, t, pi, ti, Some(star), mi)
    requires Matches(p[pi..], t[ti..])
    ensures Matches(p[star..], t[mi..])
  {
    var q, u, n := p[star + 1..], t[mi..], ti - mi;
    assert q[n..] == p[pi..] && u[n..] == t[ti..];
    forall i | 0 <= i < n ensures Fits(q[i], u[i]) {
      assert u[i] == t[mi + i] && q[i] == p[star + 1 + i];
    }
    PrefixPairs(q, u, n);
    assert p[star..][1..] == q;
  }

  /** Every accepted text matches, whatever bytes pattern and text hold. */
  lemma {:induction false} RunIsSound(p: seq<byte>, t: seq<byte>, pi: nat, ti: nat, star: Option<nat>, mi: nat)
    requires State(p, t, pi, ti, star, mi) && Paired(p, t, pi, ti, star, mi)
    requires Run(p, t, pi, ti, star, mi)
    ensures Claim(p, t, pi, ti, star, mi)
    decreases |p| - Mark(star), |t| - mi, |t| - ti
  {
    if ti == |t| {
      AllStarsMatch(p[pi..]);
      assert t[ti..] == [];
      if star.Some? { PairsBack(p, t, pi, ti, star.value, mi); }
    } else if pi < |p| && Fits(p[pi], t[ti]) {
      RunIsSound(p, t, pi + 1, ti + 1, star, mi);
      if star.None? {
        assert p[pi..][1..] == p[pi + 1..] && t[ti..][1..] == t[ti + 1..];
        PrefixPairs(p[pi..], t[ti..], 1);
      }
    } else if pi < |p| && p[pi] == STAR {
      RunIsSound(p, t, pi + 1, ti, Some(pi), ti);
      if star.Some? { PairsBack(p, t, pi, ti, star.value, mi); }
    } else {
      RunIsSound(p, t, star.value + 1, mi + 1, star, mi + 1);
      assert t[mi..][1..] == t[mi + 1..];
      StarAbsorbs(p[star.value..], t[mi..], 1);
    }
  }

  /** The star-free stretch after the recorded star. */
  ghost predicate Literal(p: seq<byte>, pi: nat, star: Option<nat>)
    requires star.Some? ==> star.value < pi <= |p|
  {
    star.Some? ==> STAR !in p[star.value + 1..pi]
  }

  /** Where the recorded star moves on by `k`, the stretch after it lies `k` further on. */
  lemma MovedStar(p: seq<byte>, t: seq<byte>, pi: nat, ti: nat, star: nat, mi: nat) returns (k: nat)
    requires State(p, t, pi, ti, Some(star), mi) && Literal(p, pi, Some(star))
    requires Matches(p[star..], t[mi..])
    ensures ti + k <= |t| && Matches(p[pi..], t[ti + k..])
    ensures k == 0 ==> Matches(p[star + 1..], t[mi..])
  {
    k := StarSplits(p[star..], t[mi..]);
    var q, u, n := p[star + 1..], t[mi + k..], ti - mi;
    assert p[star..][1..] == q && t[mi..][k..] == u;
    assert q[..n] == p[star + 1..pi];
    PrefixConsumes(q, u, n);
    assert q[n..] == p[pi..] && u[n..] == t[ti + k..];
    assert k == 0 ==> u == t[mi..];
  }

  /** With no star byte on one of the two sides nothing that matches is missed. */
  lemma {:induction false} RunIsComplete(p: seq<byte>, t: seq<byte>, pi: nat, ti: nat, star: Option<nat>, mi: nat)
    requires STAR !in p || STAR !in t
    requires State(p, t, pi, ti, star, mi) && Literal(p, pi, star)
    requires Claim(p, t, pi, ti, star, mi)
    ensures Run(p, t, pi, ti, star, mi)
    decreases |p| - Mark(star), |t| - mi, |t| - ti
  {
    if ti == |t| {
      if star.Some? {
        var k := MovedStar(p, t, pi, ti, star.value, mi);
        assert t[ti + k..] == [];
      } else {
        assert t[ti..] == [];
      }
      AllStarsMatch(p[pi..]);
    } else if pi < |p| && Fits(p[pi], t[ti]) {
      if star.Some? {
        assert p[star.value + 1..pi + 1] == p[star.value + 1..pi] + [p[pi]];
      } else {
        assert p[pi..][1..] == p[pi + 1..] && t[ti..][1..] == t[ti + 1..];
      }
      RunIsComplete(p, t, pi + 1, ti + 1, star, mi);
    } else if pi < |p| && p[pi] == STAR {
      if star.Some? {
        var k := MovedStar(p, t, pi, ti, star.value, mi);
        assert t[ti..][k..] == t[ti + k..];
        StarAbsorbs(p[pi..], t[ti..], k);
      }
      RunIsComplete(p, t, pi + 1, ti, Some(pi), ti);
    } else if star.Some? {
      if Matches(p[star.value + 1..], t[mi..]) {
        var q, n := p[star.value + 1..], ti - mi;
        assert q[..n] == p[star.value + 1..pi] && q[n..] == p[pi..] && t[mi..][n..] == t[ti..];
        PrefixConsumes(q, t[mi..], n);
        assert false;
      }
      assert p[star.value..][1..] == p[star.value + 1..] && t[mi..][1..] == t[mi + 1..];
      RunIsComplete(p, t, star.value + 1, mi + 1, star, mi + 1);
    }
  }

  lemma MatcherIsSound(p: seq<byte>, t: seq<byte>)
    ensures Wildcard(p, t) ==> Matches(p, t)
  {
    assert p[0..] == p && t[0..] == t;
    if Wildcard(p, t) {
      RunIsSound(p, t, 0, 0, None, 0);
    }
  }

  lemma MatcherIsExact(p: seq<byte>, t: seq<byte>)
    requires STAR !in p || STAR !in t
    ensures Wildcard(p, t) <==> Matches(p, t)
  {
    MatcherIsSound(p, t);
    assert p[0..] == p && t[0..] == t;
    if Matches(p, t) {
      RunIsComplete(p, t, 0, 0, None, 0);
    }
  }

  // --- Where the matcher departs from the meaning ------------------------------

  /** While pattern and text pair byte by byte, a star included, no star is recorded. */
  lemma {:induction false} PairsAreConsumed(p: seq<byte>, t: seq<byte>, from: nat, n: nat)
    requires from <= n <= |p| && n <= |t| && forall i | from <= i < n :: Fits(p[i], t[i])
    ensures Run(p, t, from, from, None, 0) == Run(p, t, n, n, None, 0)
    decreases n - from
  {
    if from < n {
      PairsAreConsumed(p, t, from + 1, n);
    }
  }

  /** Without a recorded star a star-free rest of another length is rejected. */
  lemma {:induction false} WrongLengthIsRejected(p: seq<byte>, t: seq<byte>, pi: nat, ti: nat)
    requires pi <= |p| && ti <= |t| && STAR !in p[pi..] && |p| - pi != |t| - ti
    ensures !Run(p, t, pi, ti, None, 0)
    decreases |t| - ti
  {
    if ti == |t| {
      assert p[pi..][0] in p[pi..];
    } else if pi < |p| && Fits(p[pi], t[ti]) {
      assert p[pi + 1..] == p[pi..][1..];
      WrongLengthIsRejected(p, t, pi + 1, ti + 1);
    } else if pi < |p| {
      assert p[pi] == p[pi..][0];
    }
  }

  lemma {:induction false} SplitAtLastStar(p: seq<byte>) returns (k: nat)
    requires STAR in p
    ensures k < |p| && p[k] == STAR && STAR !in p[k + 1..]
  {
    if STAR in p[1..] {
      var j := SplitAtLastStar(p[1..]);
      k := j + 1;
      assert p[1..][j + 1..] == p[k + 1..];
    } else {
      k := 0;
      assert p[0] == STAR;
    }
  }

  lemma {:induction false} MatchesItself(p: seq<byte>)
    ensures Matches(p, p)
  {
    assert p[|p|..] == [];
    PrefixPairs(p, p, |p|);
  }

  /** A pattern with a star has a text, itself with one byte put in, that is missed. */
  lemma PatternCounterexample(p: seq<byte>) returns (t: seq<byte>)
    requires STAR in p
    ensures Matches(p, t) && !Wildcard(p, t)
  {
    var k := SplitAtLastStar(p);
    var s := p[k + 1..];
    t := p[..k + 1] + [0] + s;
    forall i | 0 <= i < k + 1 ensures Fits(p[i], t[i]) {}
    PairsAreConsumed(p, t, 0, k + 1);
    WrongLengthIsRejected(p, t, k + 1, k + 1);
    MatchesItself(s);
    assert p[k..][1..] == s && t[k..][2..] == s;
    assert Matches(p[k..], t[k..][2..]);
    StarAbsorbs(p[k..], t[k..], 2);
    PrefixPairs(p, t, k);
  }

  /** A text with a star has a pattern, one star among question marks, that misses it. */
  lemma TextCounterexample(t: seq<byte>) returns (p: seq<byte>)
    requires STAR in t
    ensures Matches(p, t) && !Wildcard(p, t)
  {
    var k :| 0 <= k < |t| && t[k] == STAR;
    p := seq(|t| + 1, i => if i == k then STAR else QUESTION);
    forall i | 0 <= i < k + 1 ensures Fits(p[i], t[i]) {}
    PairsAreConsumed(p, t, 0, k + 1);
    WrongLengthIsRejected(p, t, k + 1, k + 1);
    var q, u := p[k + 1..], t[k..];
    assert q[|u|..] == [] && u[|u|..] == [];
    PrefixPairs(q, u, |u|);
    assert p[k..][1..] == q;
    PrefixPairs(p, t, k);
  }

  /** The texts on which the matcher is right for every pattern are those without a star. */
  lemma ExactTexts(t: seq<byte>)
    ensures (forall p: seq<byte> :: Wildcard(p, t) == Matches(p, t)) <==> STAR !in t
  {
    if STAR in t {
      var p := TextCounterexample(t);
    } else {
      forall p: seq<byte> ensures Wildcard(p, t) == Matches(p, t) { MatcherIsExact(p, t); }
    }
  }

  /** The patterns on which the matcher is right for every text are those without a star. */
  lemma ExactPatterns(p: seq<byte>)
    ensures (forall t: seq<byte> :: Wildcard(p, t) == Matches(p, t)) <==> STAR !in p
  {
    if STAR in p {
      var t := PatternCounterexample(p);
    } else {
      forall t: seq<byte> ensures Wildcard(p, t) == Matches(p, t) { MatcherIsExact(p, t); }
    }
  }

  // --- The pattern test the selection engine calls ------------------------------

  predicate Occurs(p: seq<byte>, t: seq<byte>) {
    exists k | 0 <= k <= |t| :: p <= t[k..]
  }

  /** A pattern with a star or question mark is a glob, any other a substring. */
  predicate MatchesPattern(p: seq<byte>, t: seq<byte>) {
    if STAR in p || QUESTION in p then Wildcard(p, t) else Occurs(p, t)
  }

  /** A plain pattern is the glob with a star on both sides. */
  lemma PlainPatternIsSurrounded(p: seq<byte>, t: seq<byte>)
    requires STAR !in p && QUESTION !in p
    ensures MatchesPattern(p, t) <==> Matches([STAR] + p + [STAR], t)
  {
    var q := [STAR] + p + [STAR];
    var r := p + [STAR];
    assert q[1..] == r && r[..|p|] == p && r[|p|..] == [STAR];
    if Occurs(p, t) {
      var k :| 0 <= k <= |t| && p <= t[k..];
      var u := t[k..];
      PrefixConsumesStar(u[|p|..]);
      PrefixPairs(r, u, |p|);
      StarAbsorbs(q, t, k);
    }
    if Matches(q, t) {
      var k := StarSplits(q, t);
      PrefixConsumes(r, t[k..], |p|);
      forall i | 0 <= i < |p| ensures p[i] == t[k..][i] {
        assert Fits(r[i], t[k..][i]) && p[i] in p;
      }
      assert p <= t[k..];
    }
  }

  /** The glob a pattern stands for. */
  function Anchored(p: seq<byte>): seq<byte> {
    if STAR in p || QUESTION in p then p else [STAR] + p + [STAR]
  }

  /** The pattern test never goes beyond the glob it stands for, and is exact unless both sides have a star. */
  lemma PatternIsGlob(p: seq<byte>, t: seq<byte>)
    ensures MatchesPattern(p, t) ==> Matches(Anchored(p), t)
    ensures STAR !in p || STAR !in t ==> (MatchesPattern(p, t) <==> Matches(Anchored(p), t))
  {
    if STAR in p || QUESTION in p {
      MatcherIsSound(p, t);
      if STAR !in p || STAR !in t { MatcherIsExact(p, t); }
    } else {
      PlainPatternIsSurrounded(p, t);
    }
  }

  lemma PrefixConsumesStar(t: seq<byte>)
    ensures Matches([STAR], t)
  {
    assert t[|t|..] == [];
    assert Matches([STAR][1..], []);
    StarAbsorbs([STAR], t, |t|);
  }
}
