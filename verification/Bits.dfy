/** Bitwise exclusive or on naturals, the one bit operation the keys, the digest
    and the checksum need beyond shifts and masks. */
module Bits {
  function Xor(a: nat, b: nat): nat {
    if a == 0 then b
    else if b == 0 then a
    else Differ(a % 2, b % 2) + 2 * Xor(a / 2, b / 2)
  }

  function Differ(p: nat, q: nat): nat {
    if p == q then 0 else 1
  }

  lemma Halves(n: nat, p: nat, r: nat)
    requires n == p + 2 * r && p < 2
    ensures n % 2 == p && n / 2 == r
  {
  }

  /** Bit by bit: low bits are compared, the rest pair up. */
  lemma XorUnfold(a: nat, b: nat)
    ensures Xor(a, b) % 2 == Differ(a % 2, b % 2)
    ensures Xor(a, b) / 2 == Xor(a / 2, b / 2)
  {
    if a != 0 && b != 0 {
      Halves(Xor(a, b), Differ(a % 2, b % 2), Xor(a / 2, b / 2));
    }
  }

  lemma {:induction false} XorComm(a: nat, b: nat)
    ensures Xor(a, b) == Xor(b, a)
  {
    if a != 0 && b != 0 {
      XorComm(a / 2, b / 2);
    }
  }

  lemma XorIdentity(a: nat)
    ensures Xor(a, 0) == a && Xor(0, a) == a
  {
  }

  lemma {:induction false} XorAssoc(a: nat, b: nat, c: nat)
    ensures Xor(Xor(a, b), c) == Xor(a, Xor(b, c))
    decreases a + b + c
  {
    hide Xor;
    XorIdentity(a);
    XorIdentity(b);
    XorIdentity(c);
    if a == 0 {
      XorIdentity(Xor(b, c));
    } else if b != 0 && c != 0 {
      XorAssoc(a / 2, b / 2, c / 2);
      var x, y := Xor(Xor(a, b), c), Xor(a, Xor(b, c));
      XorUnfold(a, b);
      XorUnfold(b, c);
      XorUnfold(Xor(a, b), c);
      XorUnfold(a, Xor(b, c));
      assert x / 2 == y / 2 && x % 2 == y % 2;
    } else if c == 0 {
      XorIdentity(Xor(a, b));
    }
  }

  lemma {:induction false} XorSelf(a: nat)
    ensures Xor(a, a) == 0
  {
    if a != 0 {
      XorSelf(a / 2);
    }
  }

  /** Xor with the same number undoes itself, so it can be cancelled. */
  lemma XorUndo(x: nat, a: nat)
    ensures Xor(x, Xor(x, a)) == a
  {
    XorAssoc(x, x, a);
    XorSelf(x);
  }

  lemma XorCancel(x: nat, a: nat, b: nat)
    requires Xor(x, a) == Xor(x, b)
    ensures a == b
  {
    XorUndo(x, a);
    XorUndo(x, b);
  }

  lemma XorZero(a: nat, b: nat)
    requires Xor(a, b) == 0
    ensures a == b
  {
    XorSelf(a);
    XorCancel(a, b, a);
  }

  function Pow2(k: nat): nat {
    if k == 0 then 1 else 2 * Pow2(k - 1)
  }

  lemma {:induction false} XorBound(a: nat, b: nat, k: nat)
    requires a < Pow2(k) && b < Pow2(k)
    ensures Xor(a, b) < Pow2(k)
  {
    if k > 0 {
      XorBound(a / 2, b / 2, k - 1);
      XorUnfold(a, b);
    }
  }

  /** a shifted left by k bits. */
  function Shl(a: nat, k: nat): nat {
    if k == 0 then a else 2 * Shl(a, k - 1)
  }

  lemma {:induction false} ShlTwice(a: nat, j: nat, k: nat)
    ensures Shl(Shl(a, j), k) == Shl(a, j + k)
    decreases k
  {
    if k > 0 {
      ShlTwice(a, j, k - 1);
    }
  }

  lemma ShlNibble(a: nat)
    ensures Shl(a, 4) == 16 * a
  {
    ShlTwice(a, 1, 1);
    ShlTwice(a, 2, 2);
    assert Shl(a, 1) == 2 * Shl(a, 0);
    assert Shl(2 * a, 1) == 2 * Shl(2 * a, 0);
    ShlTwice(4 * a, 1, 1);
    assert Shl(4 * a, 1) == 2 * Shl(4 * a, 0);
    assert Shl(8 * a, 1) == 2 * Shl(8 * a, 0);
  }

  lemma ShlByte(a: nat)
    ensures Shl(a, 8) == 256 * a
  {
    hide Shl;
    ShlTwice(a, 4, 4);
    ShlNibble(a);
    ShlNibble(16 * a);
  }

  /** Five bytes: the distance session ids are shifted by in an index key. */
  lemma Shl40(a: nat)
    ensures Shl(a, 40) == 0x100_0000_0000 * a
  {
    hide Shl;
    ShlByte(a);
    ShlByte(256 * a);
    ShlByte(65536 * a);
    ShlByte(16777216 * a);
    ShlByte(4294967296 * a);
    ShlTwice(a, 8, 8);
    ShlTwice(a, 16, 8);
    ShlTwice(a, 24, 8);
    ShlTwice(a, 32, 8);
  }

  lemma {:induction false} Pow2Shl(k: nat)
    ensures Pow2(k) == Shl(1, k)
  {
    if k > 0 {
      Pow2Shl(k - 1);
    }
  }

  // ----- by bytes -----------------------------------------------------------

  /** The bits of x are the exclusive or of those of a and b. */
  predicate ByteXor(a: nat, b: nat, x: nat) {
    && BitIs(a, b, x, 1) && BitIs(a, b, x, 2) && BitIs(a, b, x, 4) && BitIs(a, b, x, 8)
    && BitIs(a, b, x, 16) && BitIs(a, b, x, 32) && BitIs(a, b, x, 64) && BitIs(a, b, x, 128)
  }

  predicate BitIs(a: nat, b: nat, x: nat, m: nat)
    requires m > 0
  {
    x / m % 2 == Differ(a / m % 2, b / m % 2)
  }

  lemma ByteXorIs(a: nat, b: nat, x: nat)
    requires a < 256 && b < 256 && x < 256 && ByteXor(a, b, x)
    ensures Xor(a, b) == x
  {
    Quarters(a);
    Quarters(b);
    Quarters(x);
    XorIdentity(0);
    hide Xor;
    XorTwoBits(a / 64, b / 64, x / 64);
    XorTwoBits(a / 16, b / 16, x / 16);
    XorTwoBits(a / 4, b / 4, x / 4);
    XorTwoBits(a, b, x);
  }

  lemma XorTwoBits(a: nat, b: nat, x: nat)
    requires BitIs(a, b, x, 1) && BitIs(a, b, x, 2) && Xor(a / 4, b / 4) == x / 4
    ensures Xor(a, b) == x
  {
    XorUnfold(a, b);
    XorUnfold(a / 2, b / 2);
    hide Xor;
    var y := Xor(a, b);
    assert a / 2 / 2 == a / 4 && b / 2 / 2 == b / 4;
    assert y / 2 / 2 == x / 4 == x / 2 / 2;
    assert y / 2 % 2 == x / 2 % 2 && y % 2 == x % 2;
  }

  lemma Quarters(x: nat)
    ensures x / 4 / 4 == x / 16 && x / 16 / 4 == x / 64 && x / 64 / 4 == x / 256
    ensures x / 4 / 2 == x / 8 && x / 16 / 2 == x / 32 && x / 64 / 2 == x / 128
    ensures x / 4 / 1 == x / 4 && x / 16 / 1 == x / 16 && x / 64 / 1 == x / 64
  {
  }

  lemma HalfOf(h: nat, l: nat, k: nat)
    requires k > 0
    ensures (Shl(h, k) + l) / 2 == Shl(h, k - 1) + l / 2 && (Shl(h, k) + l) % 2 == l % 2
  {
  }

  lemma FromHalves(a: nat, b: nat)
    requires a / 2 == b / 2 && a % 2 == b % 2
    ensures a == b
  {
  }

  lemma HalfBelow(l: nat, k: nat)
    requires k > 0 && l < Pow2(k)
    ensures l / 2 < Pow2(k - 1)
  {
  }

  lemma SplitNothing(h: nat, l: nat, g: nat, m: nat)
    requires l < Pow2(0) && m < Pow2(0)
    ensures Xor(Shl(h, 0) + l, Shl(g, 0) + m) == Shl(Xor(h, g), 0) + Xor(l, m)
  {
  }

  /** Xor works on the bits above and below any position separately. */
  lemma {:induction false} SplitBits(h: nat, l: nat, g: nat, m: nat, k: nat)
    requires l < Pow2(k) && m < Pow2(k)
    ensures Xor(Shl(h, k) + l, Shl(g, k) + m) == Shl(Xor(h, g), k) + Xor(l, m)
    decreases k
  {
    hide Xor, Shl, Pow2;
    if k == 0 {
      SplitNothing(h, l, g, m);
    } else {
      var x, y := Shl(h, k) + l, Shl(g, k) + m;
      HalfBelow(l, k);
      HalfBelow(m, k);
      HalfOf(h, l, k);
      HalfOf(g, m, k);
      HalfOf(Xor(h, g), Xor(l, m), k);
      XorUnfold(x, y);
      XorUnfold(l, m);
      SplitBits(h, l / 2, g, m / 2, k - 1);
      FromHalves(Xor(x, y), Shl(Xor(h, g), k) + Xor(l, m));
    }
  }

  lemma SplitBytes(h: nat, l: nat, g: nat, m: nat)
    requires l < 256 && m < 256
    ensures Xor(256 * h + l, 256 * g + m) == 256 * Xor(h, g) + Xor(l, m)
  {
    hide Xor, Shl;
    ShlByte(h);
    ShlByte(g);
    ShlByte(Xor(h, g));
    assert Pow2(8) == 256;
    SplitBits(h, l, g, m, 8);
  }

  /** Xor with a byte works on the low byte alone. */
  lemma ByteSplit(hi: nat, lo: nat, b: nat)
    requires lo < 256 && b < 256
    ensures Xor(256 * hi + lo, b) == 256 * hi + Xor(lo, b)
  {
    hide Xor;
    SplitBytes(hi, lo, 0, b);
    XorIdentity(hi);
  }

  /** Bits below a shift are left alone. */
  lemma XorShl(a: nat, h: nat, l: nat, k: nat)
    requires l < Pow2(k)
    ensures Xor(Shl(a, k), Shl(h, k) + l) == Shl(Xor(a, h), k) + l
  {
    hide Xor, Shl;
    PositivePow(k);
    SplitBits(a, 0, h, l, k);
    XorIdentity(l);
  }

  lemma {:induction false} PositivePow(k: nat)
    ensures Pow2(k) > 0
  {
    if k > 0 {
      PositivePow(k - 1);
    }
  }
}
