/**
 The tail of MurmurHash3 x64: up to fifteen bytes left over from the blocks, put together in
 two words by one written-out case per length. The bytes up to the eighth go to the first
 word, the others to the second, each from the last byte to the first. The multiplication
 rounds that mix a word are parameters.
 */
module Murmur {
  import opened Basics

  // --- Bytes at their places, over any exclusive or ----------------------------------------------

  /** What a word needs for bytes to be put together: `place(w, k)` moves it up by `k` bytes. */
  datatype Ops<!W> = Ops(zero: W, xor: (W, W) -> W, place: (W, nat) -> W)

  ghost predicate Commutes<W(!new)>(o: Ops<W>) {
    (forall a :: o.xor(o.zero, a) == a) && forall a, b :: o.xor(a, b) == o.xor(b, a)
  }

  ghost predicate Associates<W(!new)>(o: Ops<W>) {
    forall a, b, c :: o.xor(o.xor(a, b), c) == o.xor(a, o.xor(b, c))
  }

  ghost predicate Distributes<W(!new)>(o: Ops<W>) {
    forall a, b :: o.place(o.xor(a, b), 1) == o.xor(o.place(a, 1), o.place(b, 1))
  }

  ghost predicate Steps<W(!new)>(o: Ops<W>) {
    && o.place(o.zero, 1) == o.zero && (forall a :: o.place(a, 0) == a)
    && forall a, k: nat | k < 7 :: o.place(o.place(a, k), 1) == o.place(a, k + 1)
  }

  ghost predicate Lawful<W(!new)>(o: Ops<W>) {
    Commutes(o) && Associates(o) && Distributes(o) && Steps(o)
  }

  /** Little-endian: the first byte is the lowest, the others are moved up. */
  function LittleEndian<W>(o: Ops<W>, t: seq<W>): W {
    if t == [] then o.zero else o.xor(t[0], o.place(LittleEndian(o, t[1..]), 1))
  }

  /** Bytes `n - 1` down to 0, each moved to its place and added. */
  function Unrolled<W>(o: Ops<W>, t: seq<W>, n: nat, acc: W): W
    requires n <= |t|
  {
    if n == 0 then acc else Unrolled(o, t, n - 1, o.xor(acc, o.place(t[n - 1], n - 1)))
  }

  ghost function Sum<W>(o: Ops<W>, t: seq<W>, j: nat): W {
    if t == [] then o.zero else o.xor(o.place(t[0], j), Sum(o, t[1..], j + 1))
  }

  lemma {:induction false} SumMovesUp<W(!new)>(o: Ops<W>, t: seq<W>, j: nat)
    requires Lawful(o) && j + |t| <= 7
    ensures Sum(o, t, j + 1) == o.place(Sum(o, t, j), 1)
    decreases |t|
  {
    if t != [] {
      SumMovesUp(o, t[1..], j + 1);
      assert o.place(o.place(t[0], j), 1) == o.place(t[0], j + 1);
    }
  }

  lemma {:induction false} SumIsLittleEndian<W(!new)>(o: Ops<W>, t: seq<W>)
    requires Lawful(o) && |t| <= 8
    ensures Sum(o, t, 0) == LittleEndian(o, t)
    decreases |t|
  {
    if t != [] {
      SumIsLittleEndian(o, t[1..]);
      SumMovesUp(o, t[1..], 0);
    }
  }

  lemma {:induction false} SumAppends<W(!new)>(o: Ops<W>, t: seq<W>, w: W, j: nat)
    requires Lawful(o)
    ensures Sum(o, t + [w], j) == o.xor(Sum(o, t, j), o.place(w, j + |t|))
    decreases |t|
  {
    if t == [] {
      assert (t + [w])[1..] == [];
      assert o.xor(o.place(w, j), o.zero) == o.xor(o.zero, o.place(w, j));
    } else {
      assert (t + [w])[1..] == t[1..] + [w];
      SumAppends(o, t[1..], w, j + 1);
    }
  }

  lemma {:induction false} UnrolledIsSum<W(!new)>(o: Ops<W>, t: seq<W>, n: nat, acc: W)
    requires Lawful(o) && n <= |t|
    ensures Unrolled(o, t, n, acc) == o.xor(acc, Sum(o, t[..n], 0))
    decreases n
  {
    if n == 0 {
      assert o.xor(acc, o.zero) == o.xor(o.zero, acc);
    } else {
      var p, rest := o.place(t[n - 1], n - 1), Sum(o, t[..n - 1], 0);
      UnrolledIsSum(o, t, n - 1, o.xor(acc, p));
      TakeNext(t, n - 1);
      SumAppends(o, t[..n - 1], t[n - 1], 0);
      assert o.xor(o.xor(acc, p), rest) == o.xor(acc, o.xor(p, rest));
      assert o.xor(p, rest) == o.xor(rest, p);
    }
  }

  /** Adding the bytes from the last to the first gives their little-endian value. */
  lemma UnrolledIsLittleEndian<W(!new)>(o: Ops<W>, t: seq<W>)
    requires Lawful(o) && |t| <= 8
    ensures Unrolled(o, t, |t|, o.zero) == LittleEndian(o, t)
  {
    UnrolledIsSum(o, t, |t|, o.zero);
    TakeAll(t);
    SumIsLittleEndian(o, t);
  }

  // --- 64-bit words ----------------------------------------------------------------------------

  /** A 64-bit word as its bits, the lowest first. */
  type Word = w: seq<bool> | |w| == 64 witness seq(64, _ => false)

  function Xor(a: Word, b: Word): Word {
    seq(64, i requires 0 <= i < 64 => a[i] != b[i])
  }

  /** `w << n`. */
  function Shl(w: Word, n: nat): Word {
    seq(64, i requires 0 <= i < 64 => i >= n && w[i - n])
  }

  function MoveUp(w: Word, k: nat): Word {
    Shl(w, 8 * k)
  }

  function Zero(): Word {
    seq(64, _ => false)
  }

  function Words(): Ops<Word> {
    var xor: (Word, Word) -> Word := Xor;
    var place: (Word, nat) -> Word := MoveUp;
    Ops(Zero(), xor, place)
  }

  lemma XorAssoc(a: Word, b: Word, c: Word)
    ensures Xor(Xor(a, b), c) == Xor(a, Xor(b, c))
  {
  }

  lemma MoveXor(a: Word, b: Word, k: nat)
    ensures MoveUp(Xor(a, b), k) == Xor(MoveUp(a, k), MoveUp(b, k))
  {
  }

  lemma MoveTwice(a: Word, k: nat)
    ensures MoveUp(MoveUp(a, k), 1) == MoveUp(a, k + 1) && MoveUp(a, 0) == a
  {
  }

  lemma WordsAreLawful(o: Ops<Word>)
    requires o == Words()
    ensures Lawful(o)
  {
    forall a ensures o.xor(o.zero, a) == a { assert Xor(o.zero, a) == a; }
    forall a, b ensures o.xor(a, b) == o.xor(b, a) { assert Xor(a, b) == Xor(b, a); }
    forall a, b, c ensures o.xor(o.xor(a, b), c) == o.xor(a, o.xor(b, c)) { XorAssoc(a, b, c); }
    forall a, b ensures o.place(o.xor(a, b), 1) == o.xor(o.place(a, 1), o.place(b, 1)) { MoveXor(a, b, 1); }
    forall a, k: nat | k < 7 ensures o.place(o.place(a, k), 1) == o.place(a, k + 1) { MoveTwice(a, k); }
    forall a ensures o.place(a, 0) == a { MoveTwice(a, 0); }
    assert o.place(o.zero, 1) == o.zero;
  }

  /** A byte as a word. */
  function Widen(b: seq<bool>): Word
    requires |b| == 8
  {
    b + seq(56, _ => false)
  }

  function WidenAll(bytes: seq<seq<bool>>): seq<Word>
    requires forall i | 0 <= i < |bytes| :: |bytes[i]| == 8
  {
    seq<Word>(|bytes|, i requires 0 <= i < |bytes| => Widen(bytes[i]))
  }

  /** The bits of the bytes one after the other, filled up with zeros. */
  ghost predicate Spells(w: Word, bytes: seq<seq<bool>>)
    requires |bytes| <= 8 && forall i | 0 <= i < |bytes| :: |bytes[i]| == 8
  {
    forall i | 0 <= i < 64 :: w[i] == (i / 8 < |bytes| && bytes[i / 8][i % 8])
  }

  lemma {:induction false} LittleEndianSpells(o: Ops<Word>, bytes: seq<seq<bool>>)
    requires o == Words() && |bytes| <= 8 && forall i | 0 <= i < |bytes| :: |bytes[i]| == 8
    ensures Spells(LittleEndian(o, WidenAll(bytes)), bytes)
    decreases |bytes|
  {
    if bytes != [] {
      var words := WidenAll(bytes);
      assert words[1..] == WidenAll(bytes[1..]);
      LittleEndianSpells(o, bytes[1..]);
      SpellsMore(o, bytes, LittleEndian(o, words[1..]));
    }
  }

  lemma SpellsMore(o: Ops<Word>, bytes: seq<seq<bool>>, rest: Word)
    requires o == Words() && 0 < |bytes| <= 8 && forall i | 0 <= i < |bytes| :: |bytes[i]| == 8
    requires Spells(rest, bytes[1..])
    ensures Spells(Xor(Widen(bytes[0]), MoveUp(rest, 1)), bytes)
  {
    var w := Xor(Widen(bytes[0]), MoveUp(rest, 1));
    forall i | 0 <= i < 64 ensures w[i] == (i / 8 < |bytes| && bytes[i / 8][i % 8]) {
      if i >= 8 {
        var j := i - 8;
        assert j / 8 == i / 8 - 1 && j % 8 == i % 8;
        assert rest[j] == (j / 8 < |bytes[1..]| && bytes[1..][j / 8][j % 8]);
      }
    }
  }

  // --- The fifteen cases -----------------------------------------------------------------------

  lemma UnrolledStep(u: seq<Word>, n: nat, acc: Word)
    requires 0 < n <= |u|
    ensures Unrolled(Words(), u, n, acc) == Unrolled(Words(), u, n - 1, Xor(acc, Shl(u[n - 1], 8 * (n - 1))))
  {
  }

  lemma UnrolledLast(u: seq<Word>, acc: Word)
    requires u != []
    ensures Unrolled(Words(), u, 1, acc) == Xor(acc, u[0])
  {
    UnrolledStep(u, 1, acc);
    assert Shl(u[0], 0) == u[0];
  }

  lemma UnrolledReads(u: seq<Word>)
    requires |u| <= 8
    ensures Unrolled(Words(), u, |u|, Zero()) == LittleEndian(Words(), u)
  {
    WordsAreLawful(Words());
    UnrolledIsLittleEndian(Words(), u);
  }

  lemma Chain1(u: seq<Word>)
    requires |u| == 1
    ensures LittleEndian(Words(), u) ==
            Xor(Zero(), u[0])
  {
    UnrolledReads(u);
    var k0 := Zero();
    UnrolledLast(u, k0);
  }

  lemma Chain2(u: seq<Word>)
    requires |u| == 2
    ensures LittleEndian(Words(), u) ==
            Xor(Xor(Zero(), Shl(u[1], 8)), u[0])
  {
    UnrolledReads(u);
    var k0 := Zero();
    UnrolledStep(u, 2, k0);
    var k1 := Xor(k0, Shl(u[1], 8));
    UnrolledLast(u, k1);
  }

  lemma Chain3(u: seq<Word>)
    requires |u| == 3
    ensures LittleEndian(Words(), u) ==
            Xor(Xor(Xor(Zero(), Shl(u[2], 16)), Shl(u[1], 8)), u[0])
  {
    UnrolledReads(u);
    var k0 := Zero();
    UnrolledStep(u, 3, k0);
    var k1 := Xor(k0, Shl(u[2], 16));
    UnrolledStep(u, 2, k1);
    var k2 := Xor(k1, Shl(u[1], 8));
    UnrolledLast(u, k2);
  }

  lemma Chain4(u: seq<Word>)
    requires |u| == 4
    ensures LittleEndian(Words(), u) ==
            Xor(Xor(Xor(Xor(Zero(), Shl(u[3], 24)), Shl(u[2], 16)), Shl(u[1], 8)), u[0])
  {
    UnrolledReads(u);
    var k0 := Zero();
    UnrolledStep(u, 4, k0);
    var k1 := Xor(k0, Shl(u[3], 24));
    UnrolledStep(u, 3, k1);
    var k2 := Xor(k1, Shl(u[2], 16));
    UnrolledStep(u, 2, k2);
    var k3 := Xor(k2, Shl(u[1], 8));
    UnrolledLast(u, k3);
  }

  lemma Chain5(u: seq<Word>)
    requires |u| == 5
    ensures LittleEndian(Words(), u) ==
            Xor(Xor(Xor(Xor(Xor(Zero(), Shl(u[4], 32)), Shl(u[3], 24)), Shl(u[2], 16)), Shl(u[1], 8)), u[0])
  {
    UnrolledReads(u);
    var k0 := Zero();
    UnrolledStep(u, 5, k0);
    var k1 := Xor(k0, Shl(u[4], 32));
    UnrolledStep(u, 4, k1);
    var k2 := Xor(k1, Shl(u[3], 24));
    UnrolledStep(u, 3, k2);
    var k3 := Xor(k2, Shl(u[2], 16));
    UnrolledStep(u, 2, k3);
    var k4 := Xor(k3, Shl(u[1], 8));
    UnrolledLast(u, k4);
  }

  lemma Chain6(u: seq<Word>)
    requires |u| == 6
    ensures LittleEndian(Words(), u) ==
            Xor(Xor(Xor(Xor(Xor(Xor(Zero(), Shl(u[5], 40)), Shl(u[4], 32)), Shl(u[3], 24)), Shl(u[2], 16)), Shl(u[1], 8)), u[0])
  {
    UnrolledReads(u);
    var k0 := Zero();
    UnrolledStep(u, 6, k0);
    var k1 := Xor(k0, Shl(u[5], 40));
    UnrolledStep(u, 5, k1);
    var k2 := Xor(k1, Shl(u[4], 32));
    UnrolledStep(u, 4, k2);
    var k3 := Xor(k2, Shl(u[3], 24));
    UnrolledStep(u, 3, k3);
    var k4 := Xor(k3, Shl(u[2], 16));
    UnrolledStep(u, 2, k4);
    var k5 := Xor(k4, Shl(u[1], 8));
    UnrolledLast(u, k5);
  }

  lemma Chain7(u: seq<Word>)
    requires |u| == 7
    ensures LittleEndian(Words(), u) ==
            Xor(Xor(Xor(Xor(Xor(Xor(Xor(Zero(), Shl(u[6], 48)), Shl(u[5], 40)), Shl(u[4], 32)), Shl(u[3], 24)), Shl(u[2], 16)), Shl(u[1], 8)), u[0])
  {
    UnrolledReads(u);
    var k0 := Zero();
    UnrolledStep(u, 7, k0);
    var k1 := Xor(k0, Shl(u[6], 48));
    UnrolledStep(u, 6, k1);
    var k2 := Xor(k1, Shl(u[5], 40));
    UnrolledStep(u, 5, k2);
    var k3 := Xor(k2, Shl(u[4], 32));
    UnrolledStep(u, 4, k3);
    var k4 := Xor(k3, Shl(u[3], 24));
    UnrolledStep(u, 3, k4);
    var k5 := Xor(k4, Shl(u[2], 16));
    UnrolledStep(u, 2, k5);
    var k6 := Xor(k5, Shl(u[1], 8));
    UnrolledLast(u, k6);
  }

  lemma Chain8(u: seq<Word>)
    requires |u| == 8
    ensures LittleEndian(Words(), u) ==
            Xor(Xor(Xor(Xor(Xor(Xor(Xor(Xor(Zero(), Shl(u[7], 56)), Shl(u[6], 48)), Shl(u[5], 40)), Shl(u[4], 32)), Shl(u[3], 24)), Shl(u[2], 16)), Shl(u[1], 8)), u[0])
  {
    UnrolledReads(u);
    var k0 := Zero();
    UnrolledStep(u, 8, k0);
    var k1 := Xor(k0, Shl(u[7], 56));
    UnrolledStep(u, 7, k1);
    var k2 := Xor(k1, Shl(u[6], 48));
    UnrolledStep(u, 6, k2);
    var k3 := Xor(k2, Shl(u[5], 40));
    UnrolledStep(u, 5, k3);
    var k4 := Xor(k3, Shl(u[4], 32));
    UnrolledStep(u, 4, k4);
    var k5 := Xor(k4, Shl(u[3], 24));
    UnrolledStep(u, 3, k5);
    var k6 := Xor(k5, Shl(u[2], 16));
    UnrolledStep(u, 2, k6);
    var k7 := Xor(k6, Shl(u[1], 8));
    UnrolledLast(u, k7);
  }

  /** The bytes of the tail that go to the first word. */
  function FirstWord(tail: seq<Word>): seq<Word> {
    if |tail| <= 8 then tail else tail[..8]
  }

  function SecondWord(tail: seq<Word>): seq<Word> {
    if |tail| <= 8 then [] else tail[8..]
  }

  /**
   The cases of the tail, one for each length: each word takes the little-endian value of its
   bytes, mixed; no byte beyond the eighth means that the second word stays as it is.
   */
  method Tail(mix1: Word -> Word, mix2: Word -> Word, h1: Word, h2: Word, tail: seq<Word>) returns (r1: Word, r2: Word)
    requires |tail| <= 15
    ensures r1 == if tail == [] then h1 else Xor(h1, mix1(LittleEndian(Words(), FirstWord(tail))))
    ensures r2 == if |tail| <= 8 then h2 else Xor(h2, mix2(LittleEndian(Words(), SecondWord(tail))))
  {
    var k1, k2 := Zero(), Zero();
    r1, r2 := h1, h2;
    match |tail| {
      case 15 =>
        k2 := Xor(k2, Shl(tail[14], 48));
        k2 := Xor(k2, Shl(tail[13], 40));
        k2 := Xor(k2, Shl(tail[12], 32));
        k2 := Xor(k2, Shl(tail[11], 24));
        k2 := Xor(k2, Shl(tail[10], 16));
        k2 := Xor(k2, Shl(tail[9], 8));
        k2 := Xor(k2, tail[8]);
        Chain7(tail[8..]);
        r2 := Xor(r2, mix2(k2));
        k1 := Xor(k1, Shl(tail[7], 56));
        k1 := Xor(k1, Shl(tail[6], 48));
        k1 := Xor(k1, Shl(tail[5], 40));
        k1 := Xor(k1, Shl(tail[4], 32));
        k1 := Xor(k1, Shl(tail[3], 24));
        k1 := Xor(k1, Shl(tail[2], 16));
        k1 := Xor(k1, Shl(tail[1], 8));
        k1 := Xor(k1, tail[0]);
        Chain8(FirstWord(tail));
        r1 := Xor(r1, mix1(k1));
      case 14 =>
        k2 := Xor(k2, Shl(tail[13], 40));
        k2 := Xor(k2, Shl(tail[12], 32));
        k2 := Xor(k2, Shl(tail[11], 24));
        k2 := Xor(k2, Shl(tail[10], 16));
        k2 := Xor(k2, Shl(tail[9], 8));
        k2 := Xor(k2, tail[8]);
        Chain6(tail[8..]);
        r2 := Xor(r2, mix2(k2));
        k1 := Xor(k1, Shl(tail[7], 56));
        k1 := Xor(k1, Shl(tail[6], 48));
        k1 := Xor(k1, Shl(tail[5], 40));
        k1 := Xor(k1, Shl(tail[4], 32));
        k1 := Xor(k1, Shl(tail[3], 24));
        k1 := Xor(k1, Shl(tail[2], 16));
        k1 := Xor(k1, Shl(tail[1], 8));
        k1 := Xor(k1, tail[0]);
        Chain8(FirstWord(tail));
        r1 := Xor(r1, mix1(k1));
      case 13 =>
        k2 := Xor(k2, Shl(tail[12], 32));
        k2 := Xor(k2, Shl(tail[11], 24));
        k2 := Xor(k2, Shl(tail[10], 16));
        k2 := Xor(k2, Shl(tail[9], 8));
        k2 := Xor(k2, tail[8]);
        Chain5(tail[8..]);
        r2 := Xor(r2, mix2(k2));
        k1 := Xor(k1, Shl(tail[7], 56));
        k1 := Xor(k1, Shl(tail[6], 48));
        k1 := Xor(k1, Shl(tail[5], 40));
        k1 := Xor(k1, Shl(tail[4], 32));
        k1 := Xor(k1, Shl(tail[3], 24));
        k1 := Xor(k1, Shl(tail[2], 16));
        k1 := Xor(k1, Shl(tail[1], 8));
        k1 := Xor(k1, tail[0]);
        Chain8(FirstWord(tail));
        r1 := Xor(r1, mix1(k1));
      case 12 =>
        k2 := Xor(k2, Shl(tail[11], 24));
        k2 := Xor(k2, Shl(tail[10], 16));
        k2 := Xor(k2, Shl(tail[9], 8));
        k2 := Xor(k2, tail[8]);
        Chain4(tail[8..]);
        r2 := Xor(r2, mix2(k2));
        k1 := Xor(k1, Shl(tail[7], 56));
        k1 := Xor(k1, Shl(tail[6], 48));
        k1 := Xor(k1, Shl(tail[5], 40));
        k1 := Xor(k1, Shl(tail[4], 32));
        k1 := Xor(k1, Shl(tail[3], 24));
        k1 := Xor(k1, Shl(tail[2], 16));
        k1 := Xor(k1, Shl(tail[1], 8));
        k1 := Xor(k1, tail[0]);
        Chain8(FirstWord(tail));
        r1 := Xor(r1, mix1(k1));
      case 11 =>
        k2 := Xor(k2, Shl(tail[10], 16));
        k2 := Xor(k2, Shl(tail[9], 8));
        k2 := Xor(k2, tail[8]);
        Chain3(tail[8..]);
        r2 := Xor(r2, mix2(k2));
        k1 := Xor(k1, Shl(tail[7], 56));
        k1 := Xor(k1, Shl(tail[6], 48));
        k1 := Xor(k1, Shl(tail[5], 40));
        k1 := Xor(k1, Shl(tail[4], 32));
        k1 := Xor(k1, Shl(tail[3], 24));
        k1 := Xor(k1, Shl(tail[2], 16));
        k1 := Xor(k1, Shl(tail[1], 8));
        k1 := Xor(k1, tail[0]);
        Chain8(FirstWord(tail));
        r1 := Xor(r1, mix1(k1));
      case 10 =>
        k2 := Xor(k2, Shl(tail[9], 8));
        k2 := Xor(k2, tail[8]);
        Chain2(tail[8..]);
        r2 := Xor(r2, mix2(k2));
        k1 := Xor(k1, Shl(tail[7], 56));
        k1 := Xor(k1, Shl(tail[6], 48));
        k1 := Xor(k1, Shl(tail[5], 40));
        k1 := Xor(k1, Shl(tail[4], 32));
        k1 := Xor(k1, Shl(tail[3], 24));
        k1 := Xor(k1, Shl(tail[2], 16));
        k1 := Xor(k1, Shl(tail[1], 8));
        k1 := Xor(k1, tail[0]);
        Chain8(FirstWord(tail));
        r1 := Xor(r1, mix1(k1));
      case 9 =>
        k2 := Xor(k2, tail[8]);
        Chain1(tail[8..]);
        r2 := Xor(r2, mix2(k2));
        k1 := Xor(k1, Shl(tail[7], 56));
        k1 := Xor(k1, Shl(tail[6], 48));
        k1 := Xor(k1, Shl(tail[5], 40));
        k1 := Xor(k1, Shl(tail[4], 32));
        k1 := Xor(k1, Shl(tail[3], 24));
        k1 := Xor(k1, Shl(tail[2], 16));
        k1 := Xor(k1, Shl(tail[1], 8));
        k1 := Xor(k1, tail[0]);
        Chain8(FirstWord(tail));
        r1 := Xor(r1, mix1(k1));
      case 8 =>
        k1 := Xor(k1, Shl(tail[7], 56));
        k1 := Xor(k1, Shl(tail[6], 48));
        k1 := Xor(k1, Shl(tail[5], 40));
        k1 := Xor(k1, Shl(tail[4], 32));
        k1 := Xor(k1, Shl(tail[3], 24));
        k1 := Xor(k1, Shl(tail[2], 16));
        k1 := Xor(k1, Shl(tail[1], 8));
        k1 := Xor(k1, tail[0]);
        Chain8(FirstWord(tail));
        r1 := Xor(r1, mix1(k1));
      case 7 =>
        k1 := Xor(k1, Shl(tail[6], 48));
        k1 := Xor(k1, Shl(tail[5], 40));
        k1 := Xor(k1, Shl(tail[4], 32));
        k1 := Xor(k1, Shl(tail[3], 24));
        k1 := Xor(k1, Shl(tail[2], 16));
        k1 := Xor(k1, Shl(tail[1], 8));
        k1 := Xor(k1, tail[0]);
        Chain7(FirstWord(tail));
        r1 := Xor(r1, mix1(k1));
      case 6 =>
        k1 := Xor(k1, Shl(tail[5], 40));
        k1 := Xor(k1, Shl(tail[4], 32));
        k1 := Xor(k1, Shl(tail[3], 24));
        k1 := Xor(k1, Shl(tail[2], 16));
        k1 := Xor(k1, Shl(tail[1], 8));
        k1 := Xor(k1, tail[0]);
        Chain6(FirstWord(tail));
        r1 := Xor(r1, mix1(k1));
      case 5 =>
        k1 := Xor(k1, Shl(tail[4], 32));
        k1 := Xor(k1, Shl(tail[3], 24));
        k1 := Xor(k1, Shl(tail[2], 16));
        k1 := Xor(k1, Shl(tail[1], 8));
        k1 := Xor(k1, tail[0]);
        Chain5(FirstWord(tail));
        r1 := Xor(r1, mix1(k1));
      case 4 =>
        k1 := Xor(k1, Shl(tail[3], 24));
        k1 := Xor(k1, Shl(tail[2], 16));
        k1 := Xor(k1, Shl(tail[1], 8));
        k1 := Xor(k1, tail[0]);
        Chain4(FirstWord(tail));
        r1 := Xor(r1, mix1(k1));
      case 3 =>
        k1 := Xor(k1, Shl(tail[2], 16));
        k1 := Xor(k1, Shl(tail[1], 8));
        k1 := Xor(k1, tail[0]);
        Chain3(FirstWord(tail));
        r1 := Xor(r1, mix1(k1));
      case 2 =>
        k1 := Xor(k1, Shl(tail[1], 8));
        k1 := Xor(k1, tail[0]);
        Chain2(FirstWord(tail));
        r1 := Xor(r1, mix1(k1));
      case 1 =>
        k1 := Xor(k1, tail[0]);
        Chain1(FirstWord(tail));
        r1 := Xor(r1, mix1(k1));
      case _ =>
    }
  }
}
