/** CRC-32 (include/ome/crc32.hpp), reflected polynomial 0xEDB88320: the
    table-driven loop, its bit-serial meaning, and the errors it detects. */
module Crc {
  import opened Bits

  type byte = x: int | 0 <= x < 256

  const POLY := 0xEDB88320
  const WORD := 0x1_0000_0000

  /** One step of the division: shift right, subtract the polynomial on a carry. */
  function BitStep(c: nat): nat {
    if c % 2 == 1 then Xor(POLY, c / 2) else c / 2
  }

  function Steps(c: nat, k: nat): nat
    decreases k
  {
    if k == 0 then c else Steps(BitStep(c), k - 1)
  }

  // ----- the table-driven form ----------------------------------------------

  /** table[(c ^ b) & 0xFF] ^ (c >> 8), with table[i] eight steps of i. */
  function ByteStep(c: nat, b: byte): nat {
    Xor(Steps(Xor(c, b) % 256, 8), c / 256)
  }

  function CrcFrom(c: nat, data: seq<byte>): nat
    decreases data
  {
    if data == [] then c else CrcFrom(ByteStep(c, data[0]), data[1..])
  }

  /** ~c on 32 bits. */
  function Not(c: nat): nat {
    if c < WORD then WORD - 1 - c else 0
  }

  /** The checksum of a buffer, continuing from an earlier result. */
  function Crc32(data: seq<byte>, crc: nat := 0): nat {
    Not(CrcFrom(Not(crc), data))
  }

  method TableEntry(i: nat) returns (c: nat)
    ensures c == Steps(i, 8)
  {
    c := i;
    var k := 0;
    while k < 8
      invariant k <= 8 && Steps(c, 8 - k) == Steps(i, 8)
    {
      c := if c % 2 == 1 then Xor(POLY, c / 2) else c / 2;
      k := k + 1;
    }
  }

  method MakeTable() returns (table: seq<nat>)
    ensures |table| == 256 && forall i :: 0 <= i < 256 ==> table[i] == Steps(i, 8)
  {
    hide Steps;
    table := [];
    while |table| < 256
      invariant |table| <= 256
      invariant forall i :: 0 <= i < |table| ==> table[i] == Steps(i, 8)
    {
      var c := TableEntry(|table|);
      table := table + [c];
    }
  }

  method ComputeCrc32(data: seq<byte>, crc: nat) returns (r: nat)
    ensures r == Crc32(data, crc)
  {
    var table := MakeTable();
    var c := Not(crc);
    var i := 0;
    while i < |data|
      invariant i <= |data|
      invariant CrcFrom(c, data[i..]) == CrcFrom(Not(crc), data)
    {
      assert data[i..][1..] == data[i+1..];
      c := Xor(table[Xor(c, data[i]) % 256], c / 256);
      i := i + 1;
    }
    r := Not(c);
  }

  // ----- the bit-serial meaning ---------------------------------------------

  /** The k low bits of a number, least significant first. */
  function BitsOf(b: nat, k: nat): (r: seq<nat>)
    ensures |r| == k
    decreases k
  {
    if k == 0 then [] else [b % 2] + BitsOf(b / 2, k - 1)
  }

  function MessageBits(data: seq<byte>): (r: seq<nat>)
    ensures |r| == 8 * |data|
  {
    if data == [] then [] else BitsOf(data[0], 8) + MessageBits(data[1..])
  }

  /** Polynomial long division, one message bit at a time. */
  function Serial(c: nat, bits: seq<nat>): nat
    decreases bits
  {
    if bits == [] then c else Serial(BitStep(Xor(c, bits[0])), bits[1..])
  }

  lemma XorOnce(a: nat, b: nat, x: nat, y: nat)
    ensures Xor(Xor(x, a), Xor(y, b)) == Xor(Xor(x, y), Xor(a, b))
  {
    hide Xor;
    XorAssoc(x, a, Xor(y, b));
    XorAssoc(a, y, b);
    XorComm(a, y);
    XorAssoc(y, a, b);
    XorAssoc(x, y, Xor(a, b));
  }

  lemma BitStepLinear(a: nat, b: nat)
    ensures BitStep(Xor(a, b)) == Xor(BitStep(a), BitStep(b))
  {
    hide Xor;
    XorUnfold(a, b);
    var x, y := a / 2, b / 2;
    if a % 2 == 1 && b % 2 == 1 {
      XorOnce(x, y, POLY, POLY);
      XorSelf(POLY);
      XorIdentity(Xor(x, y));
    } else if a % 2 == 1 {
      XorAssoc(POLY, x, y);
    } else if b % 2 == 1 {
      XorAssoc(x, POLY, y);
      XorComm(x, POLY);
      XorAssoc(POLY, x, y);
    }
  }

  lemma {:induction false} StepsLinear(a: nat, b: nat, k: nat)
    ensures Steps(Xor(a, b), k) == Xor(Steps(a, k), Steps(b, k))
    decreases k
  {
    hide Xor, BitStep;
    if k > 0 {
      BitStepLinear(a, b);
      StepsLinear(BitStep(a), BitStep(b), k - 1);
    }
  }

  /** The k low bits of x as a number, and what is above them. */
  function Low(x: nat, k: nat): nat
    decreases k
  {
    if k == 0 then 0 else x % 2 + 2 * Low(x / 2, k - 1)
  }

  function High(x: nat, k: nat): nat
    decreases k
  {
    if k == 0 then x else High(x / 2, k - 1)
  }

  lemma {:induction false} LowHigh(x: nat, k: nat)
    ensures x == Low(x, k) + Pow2(k) * High(x, k) && Low(x, k) < Pow2(k)
    decreases k
  {
    if k > 0 {
      LowHigh(x / 2, k - 1);
      Regroup(x, Low(x / 2, k - 1), Pow2(k - 1), High(x / 2, k - 1));
    }
  }

  lemma Regroup(x: nat, l: nat, p: nat, h: nat)
    requires x / 2 == l + p * h
    ensures x == x % 2 + 2 * l + (2 * p) * h
  {
    assert 2 * (p * h) == (2 * p) * h;
  }

  lemma LowByte(x: nat)
    ensures Low(x, 8) == x % 256 && High(x, 8) == x / 256
  {
    hide Low, High;
    LowHigh(x, 8);
    assert Pow2(8) == 256;
  }

  /** Eight steps act on the low byte; the rest only shifts down. */
  lemma {:induction false} StepsSplit(x: nat, k: nat)
    ensures Steps(x, k) == Xor(Steps(Low(x, k), k), High(x, k))
    decreases k
  {
    hide Xor;
    if k == 0 {
      XorIdentity(x);
    } else {
      var lo := Low(x, k);
      Halves(lo, x % 2, Low(x / 2, k - 1));
      StepsSplit(x / 2, k - 1);
      if x % 2 == 1 {
        StepsLinear(POLY, x / 2, k - 1);
        StepsLinear(POLY, lo / 2, k - 1);
        XorAssoc(Steps(POLY, k - 1), Steps(lo / 2, k - 1), High(x, k));
      }
    }
  }

  lemma {:induction false} XorHigh(c: nat, b: nat, k: nat)
    ensures High(Xor(c, b), k) == Xor(High(c, k), High(b, k))
    decreases k
  {
    hide Xor;
    if k > 0 {
      XorUnfold(c, b);
      XorHigh(c / 2, b / 2, k - 1);
    }
  }

  /** One table lookup is eight division steps. */
  lemma ByteStepIsSteps(c: nat, b: byte)
    ensures ByteStep(c, b) == Steps(Xor(c, b), 8)
  {
    hide Xor, Steps, Low, High;
    StepsSplit(Xor(c, b), 8);
    LowByte(Xor(c, b));
    XorHigh(c, b, 8);
    LowByte(c);
    LowByte(b);
    XorIdentity(c / 256);
  }

  lemma FeedBit(c: nat, b: nat)
    ensures BitStep(Xor(c, b)) == Xor(BitStep(Xor(c, b % 2)), b / 2)
  {
    hide Xor;
    XorUnfold(c, b);
    XorUnfold(c, b % 2);
    XorIdentity(c / 2);
    XorAssoc(POLY, c / 2, b / 2);
  }

  /** Feeding the bits one by one is xoring the number in and stepping. */
  lemma {:induction false} SerialIsSteps(c: nat, b: nat, k: nat)
    requires b < Pow2(k)
    ensures Serial(c, BitsOf(b, k)) == Steps(Xor(c, b), k)
    decreases k
  {
    hide Xor;
    if k == 0 {
      XorIdentity(c);
    } else {
      var c' := BitStep(Xor(c, b % 2));
      FeedBit(c, b);
      SerialIsSteps(c', b / 2, k - 1);
      assert BitsOf(b, k)[1..] == BitsOf(b / 2, k - 1);
    }
  }

  lemma {:induction false} SerialAppend(c: nat, x: seq<nat>, y: seq<nat>)
    ensures Serial(c, x + y) == Serial(Serial(c, x), y)
    decreases x
  {
    if x == [] {
      assert x + y == y;
    } else {
      assert (x + y)[1..] == x[1..] + y;
      SerialAppend(BitStep(Xor(c, x[0])), x[1..], y);
    }
  }

  /** The table-driven checksum is the bit-by-bit polynomial division. */
  lemma {:induction false} TableIsDivision(c: nat, data: seq<byte>)
    ensures CrcFrom(c, data) == Serial(c, MessageBits(data))
    decreases data
  {
    hide Xor, Steps, Serial, ByteStep;
    if data == [] {
      SerialNone(c);
    } else {
      ByteStepIsSteps(c, data[0]);
      assert Pow2(8) == 256;
      SerialIsSteps(c, data[0], 8);
      SerialAppend(c, BitsOf(data[0], 8), MessageBits(data[1..]));
      TableIsDivision(ByteStep(c, data[0]), data[1..]);
    }
  }

  lemma SerialNone(c: nat)
    ensures Serial(c, []) == c
  {
  }

  // ----- streaming ----------------------------------------------------------

  lemma {:induction false} CrcAppend(c: nat, a: seq<byte>, b: seq<byte>)
    ensures CrcFrom(c, a + b) == CrcFrom(CrcFrom(c, a), b)
    decreases a
  {
    hide ByteStep;
    if a == [] {
      assert a + b == b;
    } else {
      assert (a + b)[1..] == a[1..] + b;
      CrcAppend(ByteStep(c, a[0]), a[1..], b);
    }
  }

  lemma BitStepBound(c: nat)
    requires c < WORD
    ensures BitStep(c) < WORD
  {
    assert Pow2(32) == WORD by { WordPow(); }
    XorBound(POLY, c / 2, 32);
  }

  lemma WordPow()
    ensures Pow2(31) == 0x8000_0000 && Pow2(32) == WORD
  {
    assert Pow2(8) == 256;
    assert Pow2(16) == 65536;
    assert Pow2(24) == 16777216;
  }

  lemma {:induction false} SerialBound(c: nat, bits: seq<nat>)
    requires c < WORD && forall i :: 0 <= i < |bits| ==> bits[i] < 2
    ensures Serial(c, bits) < WORD
    decreases bits
  {
    hide Xor, BitStep;
    if bits != [] {
      FeedBound(c, bits[0]);
      SerialBound(BitStep(Xor(c, bits[0])), bits[1..]);
    }
  }

  lemma FeedBound(c: nat, b: nat)
    requires c < WORD && b < 2
    ensures Xor(c, b) < WORD && BitStep(Xor(c, b)) < WORD
  {
    hide Xor;
    WordPow();
    XorBound(c, b, 32);
    BitStepBound(Xor(c, b));
  }

  lemma {:induction false} BitsAreBits(data: seq<byte>)
    ensures forall i :: 0 <= i < |MessageBits(data)| ==> MessageBits(data)[i] < 2
  {
    if data != [] {
      ByteBitsAreBits(data[0], 8);
      BitsAreBits(data[1..]);
    }
  }

  lemma {:induction false} ByteBitsAreBits(b: nat, k: nat)
    ensures forall i :: 0 <= i < k ==> BitsOf(b, k)[i] < 2
    decreases k
  {
    if k > 0 {
      ByteBitsAreBits(b / 2, k - 1);
    }
  }

  lemma CrcBound(c: nat, data: seq<byte>)
    requires c < WORD
    ensures CrcFrom(c, data) < WORD
  {
    TableIsDivision(c, data);
    BitsAreBits(data);
    SerialBound(c, MessageBits(data));
  }

  /** Passing a result back in continues the checksum over the next buffer. */
  lemma Streaming(a: seq<byte>, b: seq<byte>, crc: nat)
    requires crc < WORD
    ensures Crc32(a + b, crc) == Crc32(b, Crc32(a, crc))
    ensures Crc32(a, crc) < WORD
  {
    hide CrcFrom;
    CrcAppend(Not(crc), a, b);
    CrcBound(Not(crc), a);
  }

  // ----- error detection ----------------------------------------------------

  /** A step that loses a bit off the end always raises the top bit. */
  lemma CarryRaisesTop(y: nat)
    requires y < 0x8000_0000
    ensures Xor(POLY, y) >= 0x8000_0000
  {
    hide Xor;
    WordPow();
    var z := Xor(POLY, y);
    if z < 0x8000_0000 {
      XorComm(POLY, y);
      XorUndo(y, POLY);
      XorBound(y, z, 31);
      assert false;
    }
  }

  lemma BitStepInjective(c: nat, d: nat)
    requires c < WORD && d < WORD && BitStep(c) == BitStep(d)
    ensures c == d
  {
    hide Xor;
    BitStepLinear(c, d);
    XorSelf(BitStep(c));
    var e := Xor(c, d);
    WordPow();
    XorBound(c, d, 32);
    if e % 2 == 1 {
      CarryRaisesTop(e / 2);
      assert false;
    }
    XorZero(c, d);
  }

  lemma FeedInjective(c: nat, d: nat, b: nat)
    requires c < WORD && d < WORD && b < 2 && BitStep(Xor(c, b)) == BitStep(Xor(d, b))
    ensures c == d
  {
    hide Xor, BitStep;
    FeedBound(c, b);
    FeedBound(d, b);
    BitStepInjective(Xor(c, b), Xor(d, b));
    XorComm(c, b);
    XorComm(d, b);
    XorCancel(b, c, d);
  }

  /** Once two registers differ, no common suffix can make them meet. */
  lemma {:induction false} SerialInjective(c: nat, d: nat, bits: seq<nat>)
    requires c < WORD && d < WORD && (forall i :: 0 <= i < |bits| ==> bits[i] < 2)
    requires Serial(c, bits) == Serial(d, bits)
    ensures c == d
    decreases bits
  {
    hide Xor, BitStep;
    if bits != [] {
      FeedBound(c, bits[0]);
      FeedBound(d, bits[0]);
      SerialInjective(BitStep(Xor(c, bits[0])), BitStep(Xor(d, bits[0])), bits[1..]);
      FeedInjective(c, d, bits[0]);
    }
  }

  /** The number a run of bits spells, first bit lowest. */
  function Pack(bits: seq<nat>): nat {
    if bits == [] then 0 else bits[0] + 2 * Pack(bits[1..])
  }

  lemma {:induction false} PackBound(bits: seq<nat>)
    requires forall i :: 0 <= i < |bits| ==> bits[i] < 2
    ensures Pack(bits) < Pow2(|bits|)
  {
    if bits != [] {
      PackBound(bits[1..]);
    }
  }

  lemma {:induction false} PackInjective(x: seq<nat>, y: seq<nat>)
    requires |x| == |y| && (forall i :: 0 <= i < |x| ==> x[i] < 2 && y[i] < 2) && Pack(x) == Pack(y)
    ensures x == y
  {
    if x != [] {
      Halves(Pack(x), x[0], Pack(x[1..]));
      Halves(Pack(y), y[0], Pack(y[1..]));
      PackInjective(x[1..], y[1..]);
      assert x == [x[0]] + x[1..] && y == [y[0]] + y[1..];
    }
  }

  lemma {:induction false} Pow2Mono(i: nat, j: nat)
    requires i <= j
    ensures Pow2(i) <= Pow2(j)
    decreases j
  {
    if i < j {
      Pow2Mono(i, j - 1);
    }
  }

  /** The last bit fed in decides the low bit of the difference. */
  lemma WindowStep(c: nat, d: nat, a: nat, b: nat, x: nat, y: nat)
    requires c < WORD && d < WORD && a < 2 && b < 2
    requires Xor(BitStep(Xor(c, a)), BitStep(Xor(d, b))) == Xor(x, y)
    requires Xor(x, y) < 0x8000_0000
    ensures Xor(c, d) == Xor(a + 2 * x, b + 2 * y)
  {
    hide Xor;
    FeedBound(c, a);
    FeedBound(d, b);
    BitStepLinear(Xor(c, a), Xor(d, b));
    var e := Xor(Xor(c, a), Xor(d, b));
    WordPow();
    XorBound(Xor(c, a), Xor(d, b), 32);
    if e % 2 == 1 {
      CarryRaisesTop(e / 2);
      assert false;
    }
    WindowBits(c, d, a, b, x, y);
  }

  lemma WindowBits(c: nat, d: nat, a: nat, b: nat, x: nat, y: nat)
    requires a < 2 && b < 2
    requires var e := Xor(Xor(c, a), Xor(d, b)); e % 2 == 0 && e / 2 == Xor(x, y)
    ensures Xor(c, d) == Xor(a + 2 * x, b + 2 * y)
  {
    hide Xor;
    var l, r := Xor(c, d), Xor(a + 2 * x, b + 2 * y);
    XorOnce(a, b, c, d);
    XorUnfold(l, Xor(a, b));
    XorUnfold(a, b);
    XorIdentity(0);
    XorUnfold(c, d);
    XorUnfold(a + 2 * x, b + 2 * y);
    Halves(a + 2 * x, a, x);
    Halves(b + 2 * y, b, y);
    XorIdentity(l / 2);
    assert l / 2 == r / 2 && l % 2 == r % 2;
  }

  /** Two runs of at most 32 bits that end in the same register started from
      registers differing exactly by the bits in which the runs differ. */
  lemma {:induction false} Window(c: nat, d: nat, v: seq<nat>, w: seq<nat>)
    requires |v| == |w| <= 32 && c < WORD && d < WORD
    requires forall i :: 0 <= i < |v| ==> v[i] < 2 && w[i] < 2
    requires Serial(c, v) == Serial(d, w)
    ensures Xor(c, d) == Xor(Pack(v), Pack(w))
    decreases v
  {
    hide Xor, BitStep;
    if v == [] {
      XorSelf(c);
      XorIdentity(0);
    } else {
      FeedBound(c, v[0]);
      FeedBound(d, w[0]);
      Window(BitStep(Xor(c, v[0])), BitStep(Xor(d, w[0])), v[1..], w[1..]);
      PackBound(v[1..]);
      PackBound(w[1..]);
      WordPow();
      Pow2Mono(|v| - 1, 31);
      XorBound(Pack(v[1..]), Pack(w[1..]), 31);
      WindowStep(c, d, v[0], w[0], Pack(v[1..]), Pack(w[1..]));
    }
  }

  /** Changing any bits within a window of 32 changes the register for good. */
  lemma BurstOnBits(c: nat, x: seq<nat>, v: seq<nat>, w: seq<nat>, y: seq<nat>)
    requires c < WORD && |v| == |w| <= 32 && v != w
    requires forall i :: 0 <= i < |x| ==> x[i] < 2
    requires forall i :: 0 <= i < |v| ==> v[i] < 2 && w[i] < 2
    requires forall i :: 0 <= i < |y| ==> y[i] < 2
    ensures Serial(c, x + v + y) != Serial(c, x + w + y)
  {
    hide Serial;
    SerialAppend(c, x + v, y);
    SerialAppend(c, x + w, y);
    SerialAppend(c, x, v);
    SerialAppend(c, x, w);
    var r := Serial(c, x);
    SerialBound(c, x);
    SerialBound(r, v);
    SerialBound(r, w);
    if Serial(Serial(r, v), y) == Serial(Serial(r, w), y) {
      SerialInjective(Serial(r, v), Serial(r, w), y);
      Window(r, r, v, w);
      XorSelf(r);
      XorZero(Pack(v), Pack(w));
      PackInjective(v, w);
      assert false;
    }
  }

  lemma BurstInside(c: nat, m: seq<nat>, o: seq<nat>, at: nat, n: nat)
    requires c < WORD && |m| == |o| && n <= 32 && at + n <= |m| && m != o
    requires forall i :: 0 <= i < |m| ==> m[i] < 2 && o[i] < 2
    requires m[..at] == o[..at] && m[at + n..] == o[at + n..]
    ensures Serial(c, m) != Serial(c, o)
  {
    hide Serial;
    var x, v, w, y := m[..at], m[at..at+n], o[at..at+n], m[at+n..];
    assert m == x + v + y && o == x + w + y;
    BurstOnBits(c, x, v, w, y);
  }

  lemma {:induction false} PackBits(b: nat, k: nat)
    ensures Pack(BitsOf(b, k)) == Low(b, k)
    decreases k
  {
    if k > 0 {
      PackBits(b / 2, k - 1);
      assert BitsOf(b, k)[1..] == BitsOf(b / 2, k - 1);
    }
  }

  lemma {:induction false} MessageBitsInjective(a: seq<byte>, b: seq<byte>)
    requires |a| == |b|
    ensures MessageBits(a) == MessageBits(b) ==> a == b
  {
    hide BitsOf, Low;
    if a != [] && MessageBits(a) == MessageBits(b) {
      assert MessageBits(a)[..8] == BitsOf(a[0], 8) && MessageBits(b)[..8] == BitsOf(b[0], 8);
      assert MessageBits(a)[8..] == MessageBits(a[1..]) && MessageBits(b)[8..] == MessageBits(b[1..]);
      PackBits(a[0], 8);
      PackBits(b[0], 8);
      LowByte(a[0]);
      LowByte(b[0]);
      MessageBitsInjective(a[1..], b[1..]);
      assert a == [a[0]] + a[1..] && b == [b[0]] + b[1..];
    }
  }

  lemma NotInjective(a: seq<byte>, b: seq<byte>)
    requires CrcFrom(WORD - 1, a) != CrcFrom(WORD - 1, b)
    ensures Crc32(a) != Crc32(b)
  {
    hide CrcFrom;
    CrcBound(WORD - 1, a);
    CrcBound(WORD - 1, b);
  }

  /** The checksum detects every error burst of up to 32 bits, at any bit
      position of a message of any length. */
  lemma DetectsBurst(data: seq<byte>, other: seq<byte>, at: nat, n: nat)
    requires |data| == |other| && n <= 32 && at + n <= 8 * |data|
    requires MessageBits(data)[..at] == MessageBits(other)[..at]
    requires MessageBits(data)[at + n..] == MessageBits(other)[at + n..]
    requires data != other
    ensures Crc32(data) != Crc32(other)
  {
    MessageBitsInjective(data, other);
    hide MessageBits, Serial, CrcFrom;
    var m, o := MessageBits(data), MessageBits(other);
    BitsAreBits(data);
    BitsAreBits(other);
    BurstInside(WORD - 1, m, o, at, n);
    TableIsDivision(WORD - 1, data);
    TableIsDivision(WORD - 1, other);
    NotInjective(data, other);
  }

  /** In particular, any change within four consecutive bytes is detected. */
  lemma DetectsFourBytes(a: seq<byte>, m: seq<byte>, n: seq<byte>, b: seq<byte>)
    requires |m| == |n| <= 4 && m != n
    ensures Crc32(a + m + b) != Crc32(a + n + b)
  {
    hide MessageBits, Crc32;
    var p, q := 8 * |a|, 8 * |m|;
    var x, y := a + m + b, a + n + b;
    BitsAround(a, m, b);
    BitsAround(a, n, b);
    MiddleDiffers(a, m, n, b);
    DetectsBurst(x, y, p, q);
  }

  lemma MiddleDiffers(a: seq<byte>, m: seq<byte>, n: seq<byte>, b: seq<byte>)
    requires |m| == |n| && m != n
    ensures a + m + b != a + n + b
  {
    var x, y := a + m + b, a + n + b;
    assert m == x[|a|..|a|+|m|] && n == y[|a|..|a|+|m|];
  }

  lemma BitsAround(a: seq<byte>, m: seq<byte>, b: seq<byte>)
    ensures MessageBits(a + m + b)[..8 * |a|] == MessageBits(a)
    ensures MessageBits(a + m + b)[8 * |a| + 8 * |m|..] == MessageBits(b)
  {
    BitsAppend(a + m, b);
    BitsAppend(a, m);
  }

  lemma {:induction false} BitsAppend(a: seq<byte>, b: seq<byte>)
    ensures MessageBits(a + b) == MessageBits(a) + MessageBits(b)
  {
    if a == [] {
      assert a + b == b;
    } else {
      assert (a + b)[1..] == a[1..] + b;
      BitsAppend(a[1..], b);
    }
  }
}
