/** Bitwise exclusive or on unbounded naturals, and shifts as division. */
module Bits {
  import opened Common

  function Pow2(k: nat): (p: nat)
    ensures p > 0
  {
    if k == 0 then 1 else 2 * Pow2(k - 1)
  }

  lemma {:induction false} Pow2Adds(j: nat, k: nat)
    ensures Pow2(j + k) == Pow2(j) * Pow2(k)
  {
    if k > 0 {
      Pow2Adds(j, k - 1);
    }
  }

  lemma Pow2Bytes()
    ensures Pow2(8) == 0x100 && Pow2(16) == 0x1_0000
  {
    assert Pow2(0) == 1 && Pow2(1) == 2 && Pow2(2) == 4;
    Pow2Adds(2, 2);
    Pow2Adds(4, 4);
    Pow2Adds(8, 8);
  }

  lemma Pow2Words()
    ensures Pow2(32) == TWO32 && Pow2(64) == TWO64
  {
    Pow2Bytes();
    Pow2Adds(16, 16);
    Pow2Adds(32, 32);
    hide Pow2;
  }

  /** Bit by bit, from the lowest. */
  function Xor(a: nat, b: nat): nat
    decreases a + b
  {
    if a == 0 && b == 0 then 0 else 2 * Xor(a / 2, b / 2) + (a + b) % 2
  }

  lemma XorUnfold(a: nat, b: nat)
    ensures Xor(a, b) == 2 * Xor(a / 2, b / 2) + (a + b) % 2
    ensures Xor(a, b) / 2 == Xor(a / 2, b / 2) && Xor(a, b) % 2 == (a + b) % 2
  {
  }

  lemma {:induction false} XorZero(a: nat)
    ensures Xor(a, 0) == a
  {
    if a > 0 {
      XorZero(a / 2);
    }
  }

  lemma {:induction false} XorCommutes(a: nat, b: nat)
    ensures Xor(a, b) == Xor(b, a)
    decreases a + b
  {
    if a > 0 || b > 0 {
      XorCommutes(a / 2, b / 2);
    }
  }

  lemma {:induction false} XorSelf(a: nat)
    ensures Xor(a, a) == 0
  {
    if a > 0 {
      XorSelf(a / 2);
    }
  }

  lemma {:induction false} XorAssociates(a: nat, b: nat, c: nat)
    ensures Xor(Xor(a, b), c) == Xor(a, Xor(b, c))
    decreases a + b + c
  {
    hide Xor;
    if a > 0 || b > 0 || c > 0 {
      XorAssociates(a / 2, b / 2, c / 2);
      var ab, bc := Xor(a, b), Xor(b, c);
      XorUnfold(a, b);
      XorUnfold(b, c);
      XorUnfold(ab, c);
      XorUnfold(a, bc);
      Parity(a, b, c, ab, bc);
    } else {
      XorZero(0);
    }
  }

  lemma Parity(a: nat, b: nat, c: nat, ab: nat, bc: nat)
    requires ab % 2 == (a + b) % 2 && bc % 2 == (b + c) % 2
    ensures (ab + c) % 2 == (a + bc) % 2
  {
  }

  /** Applying the same value twice undoes it. */
  lemma XorCancels(a: nat, b: nat)
    ensures Xor(Xor(a, b), b) == a
  {
    XorAssociates(a, b, b);
    XorSelf(b);
    XorZero(a);
  }

  lemma {:induction false} XorBound(a: nat, b: nat, k: nat)
    requires a < Pow2(k) && b < Pow2(k)
    ensures Xor(a, b) < Pow2(k)
  {
    if k > 0 {
      XorBound(a / 2, b / 2, k - 1);
      XorUnfold(a, b);
    }
  }

  /** x >> k. */
  function Shr(x: nat, k: nat): nat {
    if k == 0 then x else Shr(x / 2, k - 1)
  }

  lemma {:induction false} ShrBound(x: nat, j: nat, k: nat)
    requires x < Pow2(j + k)
    ensures Shr(x, k) < Pow2(j)
  {
    if k > 0 {
      ShrBound(x / 2, j, k - 1);
    }
  }

  /** Shifting right distributes. */
  lemma {:induction false} XorShift(a: nat, b: nat, k: nat)
    ensures Shr(Xor(a, b), k) == Xor(Shr(a, k), Shr(b, k))
  {
    if k > 0 {
      XorShift(a / 2, b / 2, k - 1);
      XorUnfold(a, b);
    }
  }

  /** Values that share no bits: exclusive or is addition. */
  lemma {:induction false} XorDisjoint(a: nat, b: nat, k: nat)
    requires b < Pow2(k)
    ensures Xor(a * Pow2(k), b) == a * Pow2(k) + b
  {
    hide Xor;
    if k == 0 {
      XorZero(a);
    } else {
      var half := a * Pow2(k - 1);
      DoublePow2(a, k);
      DoublePow2(1, k);
      hide Pow2;
      XorDisjoint(a, b / 2, k - 1);
      XorDoubled(half, b);
    }
  }

  lemma XorDoubled(h: nat, b: nat)
    requires Xor(h, b / 2) == h + b / 2
    ensures Xor(2 * h, b) == 2 * h + b
  {
    hide Xor;
    XorUnfold(2 * h, b);
  }

  lemma DoublePow2(a: nat, k: nat)
    requires k > 0
    ensures a * Pow2(k) == 2 * (a * Pow2(k - 1))
  {
  }

  // ---------- Values ----------

  /** One binary digit. */
  type bit = x: nat | x < 2

  function BitXor(n: bit, m: bit): bit {
    if n == m then 0 else 1
  }

  lemma XorBit(a: nat, b: nat, n: bit, m: bit)
    ensures Xor(2 * a + n, 2 * b + m) == 2 * Xor(a, b) + BitXor(n, m)
  {
    var x, y := 2 * a + n, 2 * b + m;
    HalfIs(a, n, x);
    HalfIs(b, m, y);
    LastBits(a, b, n, m, x, y);
    if x == 0 && y == 0 {
      XorZero(0);
    }
    hide BitXor;
  }

  lemma HalfIs(a: nat, n: bit, x: nat)
    requires x == 2 * a + n
    ensures x / 2 == a
  {
  }

  lemma LastBits(a: nat, b: nat, n: bit, m: bit, x: nat, y: nat)
    requires x == 2 * a + n && y == 2 * b + m
    ensures (x + y) % 2 == BitXor(n, m)
  {
    var s := a + b;
    assert x + y == 2 * s + (n + m);
  }

  /** Four binary digits below a and b, and what they come to. */
  lemma XorNibble(a: nat, b: nat, n3: bit, n2: bit, n1: bit, n0: bit, m3: bit, m2: bit, m1: bit, m0: bit,
                  x: nat, y: nat, z: nat)
    requires x == 16 * a + 8 * n3 + 4 * n2 + 2 * n1 + n0 && y == 16 * b + 8 * m3 + 4 * m2 + 2 * m1 + m0
    requires z == 16 * Xor(a, b) + (if n3 == m3 then 0 else 8) + (if n2 == m2 then 0 else 4)
                  + (if n1 == m1 then 0 else 2) + (if n0 == m0 then 0 else 1)
    ensures Xor(x, y) == z
  {
    hide Xor;
    var a1, b1 := 2 * a + n3, 2 * b + m3;
    var a2, b2 := 2 * a1 + n2, 2 * b1 + m2;
    var a3, b3 := 2 * a2 + n1, 2 * b2 + m1;
    XorBit(a, b, n3, m3);
    XorBit(a1, b1, n2, m2);
    XorBit(a2, b2, n1, m1);
    XorBit(a3, b3, n0, m0);
  }

  lemma {:induction false} ShrIs(x: nat, k: nat)
    ensures Shr(x, k) == x / Pow2(k)
  {
    if k > 0 {
      ShrIs(x / 2, k - 1);
      DivTwice(x, Pow2(k - 1));
    }
  }

  lemma DivTwice(x: nat, p: nat)
    requires p > 0
    ensures x / 2 / p == x / (2 * p)
  {
    var q, r := x / 2 / p, x / 2 % p;
    assert x / 2 == q * p + r;
    assert x == q * (2 * p) + (2 * r + x % 2);
    assert 0 <= 2 * r + x % 2 < 2 * p;
    QuotientIs(x, 2 * p, q, 2 * r + x % 2);
  }

  lemma QuotientIs(x: nat, d: nat, q: nat, r: nat)
    requires d > 0 && x == q * d + r && r < d
    ensures x / d == q
  {
    var e, f := x / d, x % d;
    assert (e - q) * d == r - f;
    NoMultiple(e - q, d, r - f);
  }

  lemma NoMultiple(k: int, d: nat, z: int)
    requires k * d == z && z < d && -z < d
    ensures k == 0
  {
  }
}
