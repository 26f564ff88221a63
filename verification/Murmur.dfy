/** murmur_hash64 (the 64-bit version) of src/misc.c, on a little-endian machine:
    unsigned arithmetic modulo 2^64. */
module Murmur {
  import opened Common
  import opened Bits

  const M := 0xc6a4a7935bd1e995
  /** The inverse of M modulo 2^64. */
  const M_INVERSE := 0x5f7a0ea7e59b19bd
  /** M * M_INVERSE == M_PRODUCT * 2^64 + 1. */
  const M_PRODUCT := 5338401661063375727
  const R := 47

  type Word = x: int | 0 <= x < TWO64

  // ---------- The mixing steps ----------

  function Mul(x: Word): Word {
    x * M % TWO64
  }

  function Unmul(x: Word): Word {
    x * M_INVERSE % TWO64
  }

  function XorWord(a: Word, b: Word): Word {
    Pow2Words();
    XorBound(a, b, 64);
    Xor(a, b)
  }

  /** x ^= x >> 47. */
  function FoldHigh(x: Word): Word {
    Pow2Words();
    ShrLess(x, R);
    XorWord(x, Shr(x, R))
  }

  lemma {:induction false} ShrLess(x: nat, k: nat)
    ensures Shr(x, k) <= x
  {
    if k > 0 {
      ShrLess(x / 2, k - 1);
    }
  }

  lemma ModIs(y: int, x: Word, k: int)
    requires y == x + TWO64 * k
    ensures y % TWO64 == x
  {
  }

  lemma UnmulOfMul(x: Word)
    ensures Unmul(Mul(x)) == x
  {
    var r := Mul(x);
    var q := x * M / TWO64;
    assert r == x * M - q * TWO64;
    hide Mul;
    ModIs(r * M_INVERSE, x, M_PRODUCT * x - q * M_INVERSE);
  }

  /** Folding twice is the identity: 2 * 47 bits are more than there are. */
  lemma FoldTwice(x: Word)
    ensures FoldHigh(FoldHigh(x)) == x
  {
    hide Xor, Shr, Pow2;
    var s := Shr(x, R);
    ShiftedOut(x);
    XorShift(x, s, R);
    XorZero(s);
    XorCancels(x, s);
  }

  lemma ShiftedOut(x: Word)
    ensures Shr(Shr(x, R), R) == 0
  {
    hide Shr, Pow2;
    Pow2Words();
    ShrBound(x, 17, R);
    Pow2Grows(17, R);
    ShrBound(Shr(x, R), 0, R);
    Pow2Zero();
  }

  lemma Pow2Zero()
    ensures Pow2(0) == 1
  {
  }

  lemma {:induction false} Pow2Grows(j: nat, k: nat)
    requires j <= k
    ensures Pow2(j) <= Pow2(k)
  {
    if j < k {
      Pow2Grows(j, k - 1);
    }
  }

  // ---------- Reading the key ----------

  /** Little-endian value of some bytes. */
  function Load(bytes: Bytes): nat {
    if bytes == [] then 0 else bytes[0] as int + 256 * Load(bytes[1..])
  }

  lemma {:induction false} LoadBound(bytes: Bytes)
    ensures Load(bytes) < Pow2(8 * |bytes|)
  {
    if bytes != [] {
      LoadBound(bytes[1..]);
      Pow2Bytes();
      Pow2Adds(8, 8 * (|bytes| - 1));
    }
  }

  lemma {:induction false} LoadInjective(a: Bytes, b: Bytes)
    requires |a| == |b| && Load(a) == Load(b)
    ensures a == b
  {
    if a != [] {
      LoadInjective(a[1..], b[1..]);
      assert a == [a[0]] + a[1..] && b == [b[0]] + b[1..];
    }
  }

  function LoadWord(bytes: Bytes): (w: Word)
    requires |bytes| <= 8
  {
    LoadBound(bytes);
    Pow2Words();
    Pow2Grows(8 * |bytes|, 64);
    Load(bytes)
  }

  /** The i-th aligned block of 8 bytes. */
  function Block(key: Bytes, i: nat): Word
    requires 8 * i + 8 <= |key|
  {
    LoadWord(key[8 * i..8 * i + 8])
  }

  function Tail(key: Bytes): (t: Bytes)
    ensures |t| == |key| % 8
  {
    key[|key| / 8 * 8..]
  }

  // ---------- The hash ----------

  function Mix(k: Word): Word {
    Mul(FoldHigh(Mul(k)))
  }

  function Step(h: Word, k: Word): Word {
    Mul(XorWord(h, Mix(k)))
  }

  function Blocks(h: Word, key: Bytes, n: nat): Word
    requires 8 * n <= |key|
  {
    if n == 0 then h else Step(Blocks(h, key, n - 1), Block(key, n - 1))
  }

  function TailStep(h: Word, tail: Bytes): Word
    requires |tail| < 8
  {
    if tail == [] then h else Mul(XorWord(h, LoadWord(tail)))
  }

  function Finish(h: Word): Word {
    FoldHigh(Mul(FoldHigh(h)))
  }

  predicate IsKey(key: Bytes) {
    |key| < TWO31
  }

  predicate IsSeed(seed: nat) {
    seed < TWO32
  }

  function Start(key: Bytes, seed: nat): Word
    requires IsKey(key) && IsSeed(seed)
  {
    XorWord(seed, Mul(|key|))
  }

  function Hash(key: Bytes, seed: nat): Word
    requires IsKey(key) && IsSeed(seed)
  {
    Finish(TailStep(Blocks(Start(key, seed), key, |key| / 8), Tail(key)))
  }

  // ---------- Everything can be undone ----------

  lemma XorWordCancels(a: Word, b: Word)
    ensures XorWord(XorWord(a, b), b) == a && XorWord(b, XorWord(b, a)) == a
  {
    hide Xor;
    XorCancels(a, b);
    XorCommutes(a, b);
    XorCommutes(b, XorWord(b, a));
  }

  function Unfinish(h: Word): Word {
    FoldHigh(Unmul(FoldHigh(h)))
  }

  lemma UnfinishFinish(h: Word)
    ensures Unfinish(Finish(h)) == h
  {
    hide FoldHigh, Mul, Unmul;
    FoldTwice(Mul(FoldHigh(h)));
    UnmulOfMul(FoldHigh(h));
    FoldTwice(h);
  }

  function Unstep(h: Word, k: Word): Word {
    XorWord(Unmul(h), Mix(k))
  }

  lemma UnstepStep(h: Word, k: Word)
    ensures Unstep(Step(h, k), k) == h
  {
    hide Mul, Unmul, XorWord, Mix;
    UnmulOfMul(XorWord(h, Mix(k)));
    XorWordCancels(h, Mix(k));
  }

  function Untail(h: Word, tail: Bytes): Word
    requires |tail| < 8
  {
    if tail == [] then h else XorWord(Unmul(h), LoadWord(tail))
  }

  lemma UntailTail(h: Word, tail: Bytes)
    requires |tail| < 8
    ensures Untail(TailStep(h, tail), tail) == h
  {
    hide Mul, Unmul, XorWord, LoadWord;
    if tail != [] {
      UnmulOfMul(XorWord(h, LoadWord(tail)));
      XorWordCancels(h, LoadWord(tail));
    }
  }

  function Unblocks(h: Word, key: Bytes, n: nat): Word
    requires 8 * n <= |key|
    decreases n
  {
    if n == 0 then h else Unblocks(Unstep(h, Block(key, n - 1)), key, n - 1)
  }

  lemma {:induction false} UnblocksBlocks(h: Word, key: Bytes, n: nat)
    requires 8 * n <= |key|
    ensures Unblocks(Blocks(h, key, n), key, n) == h
  {
    hide Step, Unstep, Block;
    if n > 0 {
      UnstepStep(Blocks(h, key, n - 1), Block(key, n - 1));
      UnblocksBlocks(h, key, n - 1);
    }
  }

  /** The seed a hash of a known key was made with. */
  function Unhash(key: Bytes, hash: Word): Word
    requires IsKey(key)
  {
    XorWord(Unblocks(Untail(Unfinish(hash), Tail(key)), key, |key| / 8), Mul(|key|))
  }

  /** For a fixed key the hash can be inverted, so no two seeds share one. */
  lemma SeedRecovered(key: Bytes, seed: nat)
    requires IsKey(key) && IsSeed(seed)
    ensures Unhash(key, Hash(key, seed)) == seed
  {
    hide Finish, Unfinish, TailStep, Untail, Blocks, Unblocks, XorWord, Mul;
    var start := Start(key, seed);
    var blocks := Blocks(start, key, |key| / 8);
    UnfinishFinish(TailStep(blocks, Tail(key)));
    UntailTail(blocks, Tail(key));
    UnblocksBlocks(start, key, |key| / 8);
    XorWordCancels(seed, Mul(|key|));
  }

  // ---------- Keys that cannot collide ----------

  lemma MixInjective(k: Word, l: Word)
    requires Mix(k) == Mix(l)
    ensures k == l
  {
    hide Mul, FoldHigh;
    UnmulOfMul(FoldHigh(Mul(k)));
    UnmulOfMul(FoldHigh(Mul(l)));
    FoldTwice(Mul(k));
    FoldTwice(Mul(l));
    UnmulOfMul(k);
    UnmulOfMul(l);
  }

  lemma XorWordInjective(h: Word, a: Word, b: Word)
    requires XorWord(h, a) == XorWord(h, b)
    ensures a == b
  {
    hide XorWord;
    XorWordCancels(a, h);
    XorWordCancels(b, h);
  }

  /** Different blocks give different states. */
  lemma StepInjective(h: Word, k: Word, l: Word)
    requires Step(h, k) == Step(h, l)
    ensures k == l
  {
    hide Mul, XorWord, Mix;
    UnmulOfMul(XorWord(h, Mix(k)));
    UnmulOfMul(XorWord(h, Mix(l)));
    XorWordInjective(h, Mix(k), Mix(l));
    MixInjective(k, l);
  }

  lemma TailInjective(h: Word, s: Bytes, t: Bytes)
    requires |s| == |t| < 8 && TailStep(h, s) == TailStep(h, t)
    ensures s == t
  {
    hide Mul, XorWord, Load;
    if s != [] {
      UnmulOfMul(XorWord(h, LoadWord(s)));
      UnmulOfMul(XorWord(h, LoadWord(t)));
      XorWordInjective(h, LoadWord(s), LoadWord(t));
      LoadInjective(s, t);
    }
  }

  /** Equal blocks keep states together. */
  lemma {:induction false} BlocksAgree(h: Word, a: Bytes, b: Bytes, n: nat)
    requires |a| == |b| && 8 * n <= |a| && a[..8 * n] == b[..8 * n]
    ensures Blocks(h, a, n) == Blocks(h, b, n)
  {
    hide Step, Block;
    if n > 0 {
      assert a[..8 * (n - 1)] == a[..8 * n][..8 * (n - 1)] == b[..8 * (n - 1)];
      BlocksAgree(h, a, b, n - 1);
      assert a[8 * (n - 1)..8 * (n - 1) + 8] == a[..8 * n][8 * (n - 1)..] == b[8 * (n - 1)..8 * (n - 1) + 8];
      SameBlock(a, b, n - 1);
    }
  }

  lemma SameBlock(a: Bytes, b: Bytes, i: nat)
    requires 8 * i + 8 <= |a| == |b| && a[8 * i..8 * i + 8] == b[8 * i..8 * i + 8]
    ensures Block(a, i) == Block(b, i)
  {
  }

  /** ... and once apart, equal blocks keep them apart. */
  lemma {:induction false} BlocksStayApart(h: Word, a: Bytes, b: Bytes, m: nat, n: nat)
    requires |a| == |b| && m <= n && 8 * n <= |a| && a[8 * m..] == b[8 * m..]
    requires Blocks(h, a, m) != Blocks(h, b, m)
    ensures Blocks(h, a, n) != Blocks(h, b, n)
  {
    hide Step, Unstep, Block;
    if m < n {
      BlocksStayApart(h, a, b, m, n - 1);
      var i := 8 * (n - 1);
      assert a[i..i + 8] == a[8 * m..][i - 8 * m..i - 8 * m + 8] == b[i..i + 8];
      SameBlock(a, b, n - 1);
      UnstepStep(Blocks(h, a, n - 1), Block(a, n - 1));
      UnstepStep(Blocks(h, b, n - 1), Block(b, n - 1));
    }
  }

  lemma HashSeparates(a: Bytes, b: Bytes, seed: nat)
    requires |a| == |b| && IsKey(a) && IsSeed(seed)
    requires TailStep(Blocks(Start(a, seed), a, |a| / 8), Tail(a)) != TailStep(Blocks(Start(b, seed), b, |b| / 8), Tail(b))
    ensures Hash(a, seed) != Hash(b, seed)
  {
    hide Finish, TailStep, Blocks, Tail;
    UnfinishFinish(TailStep(Blocks(Start(a, seed), a, |a| / 8), Tail(a)));
    UnfinishFinish(TailStep(Blocks(Start(b, seed), b, |b| / 8), Tail(b)));
  }

  /** Two keys of equal length that differ in one aligned block only never
      collide, for any seed. */
  lemma NoCollisionInOneBlock(a: Bytes, b: Bytes, seed: nat, i: nat)
    requires |a| == |b| && IsKey(a) && IsSeed(seed) && 8 * i + 8 <= |a| && a != b
    requires a[..8 * i] == b[..8 * i] && a[8 * i + 8..] == b[8 * i + 8..]
    ensures Hash(a, seed) != Hash(b, seed)
  {
    hide Step, TailStep, Hash, LoadWord;
    var start, n := Start(a, seed), |a| / 8;
    BlocksAgree(start, a, b, i);
    BlocksDiffer(a, b, i);
    var h := Blocks(start, a, i);
    if Step(h, Block(a, i)) == Step(h, Block(b, i)) {
      StepInjective(h, Block(a, i), Block(b, i));
    }
    BlocksStayApart(start, a, b, i + 1, n);
    SameTail(a, b, i);
    UntailTail(Blocks(start, a, n), Tail(a));
    UntailTail(Blocks(start, b, n), Tail(b));
    HashSeparates(a, b, seed);
  }

  lemma BlocksDiffer(a: Bytes, b: Bytes, i: nat)
    requires |a| == |b| && 8 * i + 8 <= |a| && a != b
    requires a[..8 * i] == b[..8 * i] && a[8 * i + 8..] == b[8 * i + 8..]
    ensures Block(a, i) != Block(b, i)
  {
    var x, y := a[8 * i..8 * i + 8], b[8 * i..8 * i + 8];
    assert a == a[..8 * i] + x + a[8 * i + 8..] && b == b[..8 * i] + y + b[8 * i + 8..];
    if Load(x) == Load(y) {
      LoadInjective(x, y);
    }
  }

  lemma SameTail(a: Bytes, b: Bytes, i: nat)
    requires |a| == |b| && 8 * i + 8 <= |a| && a[8 * i + 8..] == b[8 * i + 8..]
    ensures Tail(a) == Tail(b)
  {
    var t := |a| / 8 * 8;
    assert a[t..] == a[8 * i + 8..][t - (8 * i + 8)..];
    assert b[t..] == b[8 * i + 8..][t - (8 * i + 8)..];
  }

  /** Nor do two keys that differ only in the bytes after the last block. */
  lemma NoCollisionInTail(a: Bytes, b: Bytes, seed: nat)
    requires |a| == |b| && IsKey(a) && IsSeed(seed) && a != b
    requires a[..|a| / 8 * 8] == b[..|b| / 8 * 8]
    ensures Hash(a, seed) != Hash(b, seed)
  {
    hide Step, TailStep, Hash, LoadWord;
    var n := |a| / 8;
    assert a == a[..n * 8] + Tail(a) && b == b[..n * 8] + Tail(b);
    BlocksAgree(Start(a, seed), a, b, n);
    var h := Blocks(Start(a, seed), a, n);
    if TailStep(h, Tail(a)) == TailStep(h, Tail(b)) {
      TailInjective(h, Tail(a), Tail(b));
    }
    HashSeparates(a, b, seed);
  }

  // ---------- The loop ----------

  /** The bytes of the tail from position i on, shifted into place. */
  function High(tail: Bytes, i: nat): nat {
    if i >= |tail| then 0 else Load(tail[i..]) * Pow2(8 * i)
  }

  lemma MulLess(a: nat, b: nat, c: nat)
    requires a < b && c > 0
    ensures a * c < b * c
  {
  }

  function Rest(tail: Bytes, i: nat): nat {
    if i + 1 < |tail| then Load(tail[i + 1..]) else 0
  }

  lemma HighUnfold(tail: Bytes, i: nat)
    requires i < |tail|
    ensures High(tail, i) == (tail[i] as int + 256 * Rest(tail, i)) * Pow2(8 * i)
    ensures High(tail, i + 1) == Rest(tail, i) * Pow2(8 * (i + 1))
  {
    hide Pow2;
    assert tail[i..][1..] == tail[i + 1..];
    assert Load(tail[i..]) == tail[i] as int + 256 * Rest(tail, i);
  }

  function Shifted(tail: Bytes, i: nat): nat
    requires i < |tail|
  {
    tail[i] as int * Pow2(8 * i)
  }

  /** One more byte is one more exclusive or. */
  lemma HighStep(tail: Bytes, i: nat)
    requires i < |tail| < 8
    ensures High(tail, i) == Xor(High(tail, i + 1), Shifted(tail, i))
  {
    HighUnfold(tail, i);
    hide Load, Xor, High, Rest, Pow2;
    var b, p, rest := tail[i] as int, Pow2(8 * i), Rest(tail, i);
    Pow2Bytes();
    Pow2Adds(8, 8 * i);
    MulLess(b, 256, p);
    XorDisjoint(rest, b * p, 8 * (i + 1));
    Distribute(b, rest, p);
  }

  lemma Distribute(b: nat, rest: nat, p: nat)
    ensures (b + 256 * rest) * p == rest * (256 * p) + b * p
  {
  }

  /** h ^= (uint64_t)tail[i] << 8 * i. */
  method XorByte(h: Word, tail: Bytes, i: nat, ghost h0: Word) returns (r: Word)
    requires i < |tail| < 8 && h == Xor(h0, High(tail, i + 1))
    ensures r == Xor(h0, High(tail, i))
  {
    hide Pow2, High, Xor, Shifted;
    ShiftedBound(tail, i);
    HighStep(tail, i);
    r := XorWord(h, Shifted(tail, i));
    XorAssociates(h0, High(tail, i + 1), Shifted(tail, i));
  }

  lemma ShiftedBound(tail: Bytes, i: nat)
    requires i < |tail| < 8
    ensures Shifted(tail, i) < TWO64
  {
    hide Pow2;
    var b := tail[i];
    Pow2Bytes();
    Pow2Adds(8, 8 * i);
    Pow2Grows(8 * (i + 1), 64);
    Pow2Words();
    MulLess(b as int, 256, Pow2(8 * i));
  }

  /** The switch over len & 7, whose cases fall through. */
  method MixTail(h0: Word, tail: Bytes) returns (h: Word)
    requires |tail| < 8
    ensures h == TailStep(h0, tail)
  {
    hide Xor, Load, Mul;
    h := h0;
    XorZero(h0);
    if |tail| >= 7 { h := XorByte(h, tail, 6, h0); }
    if |tail| >= 6 { h := XorByte(h, tail, 5, h0); }
    if |tail| >= 5 { h := XorByte(h, tail, 4, h0); }
    if |tail| >= 4 { h := XorByte(h, tail, 3, h0); }
    if |tail| >= 3 { h := XorByte(h, tail, 2, h0); }
    if |tail| >= 2 { h := XorByte(h, tail, 1, h0); }
    if |tail| >= 1 {
      h := XorByte(h, tail, 0, h0);
      assert tail[0..] == tail;
      h := Mul(h);
    }
  }

  method MurmurHash64(key: Bytes, seed: nat) returns (h: Word)
    requires IsKey(key) && IsSeed(seed)
    ensures h == Hash(key, seed)
  {
    hide Mul, XorWord, FoldHigh, Block, TailStep;
    var len := |key|;
    h := XorWord(seed, Mul(len));
    ghost var start := h;
    var data := 0;
    while data != len / 8
      invariant 0 <= data <= len / 8 && h == Blocks(start, key, data)
      decreases len / 8 - data
    {
      var k := Block(key, data);
      data := data + 1;
      k := Mul(k);
      k := FoldHigh(k);
      k := Mul(k);
      h := XorWord(h, k);
      h := Mul(h);
    }
    h := MixTail(h, key[data * 8..]);
    h := FoldHigh(h);
    h := Mul(h);
    h := FoldHigh(h);
  }
}
