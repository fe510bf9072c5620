/** Why the checksum inverts before and after (include/ome/crc32.hpp): the published
    value for a single zero byte, and what it means for leading zeros. */
module CrcLaws {
  import opened Bits
  import opened Crc

  function Word(b3: nat, b2: nat, b1: nat, b0: nat): nat {
    256 * (256 * (256 * b3 + b2) + b1) + b0
  }

  /** A division step that carries, byte by byte against the polynomial. */
  lemma OddStep(c: nat, y3: nat, y2: nat, y1: nat, y0: nat, x3: nat, x2: nat, x1: nat, x0: nat)
    requires c == 2 * Word(y3, y2, y1, y0) + 1
    requires y3 < 256 && y2 < 256 && y1 < 256 && y0 < 256 && x3 < 256 && x2 < 256 && x1 < 256 && x0 < 256
    requires ByteXor(0xED, y3, x3) && ByteXor(0xB8, y2, x2) && ByteXor(0x83, y1, x1) && ByteXor(0x20, y0, x0)
    ensures BitStep(c) == Word(x3, x2, x1, x0)
  {
    hide Xor, ByteXor;
    ByteXorIs(0xED, y3, x3);
    ByteXorIs(0xB8, y2, x2);
    ByteXorIs(0x83, y1, x1);
    ByteXorIs(0x20, y0, x0);
    SplitBytes(0xED, 0xB8, y3, y2);
    SplitBytes(0xEDB8, 0x83, 256 * y3 + y2, y1);
    SplitBytes(0xEDB883, 0x20, 256 * (256 * y3 + y2) + y1, y0);
    assert c % 2 == 1 && c / 2 == Word(y3, y2, y1, y0);
  }

  lemma {:induction false} StepsTwice(c: nat, j: nat, k: nat)
    ensures Steps(c, j + k) == Steps(Steps(c, j), k)
    decreases j
  {
    hide BitStep;
    if j > 0 {
      StepsTwice(BitStep(c), j - 1, k);
    }
  }

  lemma TwoSteps(c: nat, d: nat, e: nat)
    requires BitStep(c) == d && BitStep(d) == e
    ensures Steps(c, 2) == e
  {
    hide BitStep;
    assert Steps(c, 2) == Steps(d, 1) == Steps(e, 0);
  }

  lemma First()
    ensures BitStep(4294967295) == 2454158559
  {
    OddStep(4294967295, 127, 255, 255, 255, 146, 71, 124, 223);
  }

  lemma Second()
    ensures BitStep(2454158559) == 2761637199
  {
    OddStep(2454158559, 73, 35, 190, 111, 164, 155, 61, 79);
  }

  lemma Third()
    ensures BitStep(2761637199) == 3220512135
  {
    OddStep(2761637199, 82, 77, 158, 167, 191, 245, 29, 135);
  }

  lemma Fourth()
    ensures BitStep(3220512135) == 2990673379
  {
    OddStep(3220512135, 95, 250, 142, 195, 178, 66, 13, 227);
  }

  lemma Fifth()
    ensures BitStep(2990673379) == 3029960145
  {
    OddStep(2990673379, 89, 33, 6, 241, 180, 153, 133, 209);
  }

  lemma Sixth()
    ensures BitStep(3029960145) == 3086238152
  {
    OddStep(3029960145, 90, 76, 194, 232, 183, 244, 65, 200);
  }

  /** The last two carry nothing. */
  lemma LastTwo()
    ensures Steps(3086238152, 2) == 771559538
  {
    assert BitStep(3086238152) == 1543119076 && BitStep(1543119076) == 771559538;
    TwoSteps(3086238152, 1543119076, 771559538);
  }

  /** A zero byte takes the inverted register somewhere else. */
  lemma ZeroMoves()
    ensures Steps(4294967295, 8) == 771559538
  {
    hide Steps;
    hide BitStep;
    First();
    Second();
    Third();
    Fourth();
    Fifth();
    Sixth();
    LastTwo();
    TwoSteps(4294967295, 2454158559, 2761637199);
    TwoSteps(2761637199, 3220512135, 2990673379);
    TwoSteps(2990673379, 3029960145, 3086238152);
    StepsTwice(4294967295, 2, 6);
    StepsTwice(2761637199, 2, 4);
    StepsTwice(2990673379, 2, 2);
  }

  lemma ZeroStep()
    ensures ByteStep(4294967295, 0) == 771559538
  {
    hide Steps, Xor;
    ByteStepIsSteps(4294967295, 0);
    XorIdentity(4294967295);
    ZeroMoves();
  }

  lemma CrcCons(c: nat, b: byte, data: seq<byte>)
    ensures CrcFrom(c, [b] + data) == CrcFrom(ByteStep(c, b), data)
  {
    hide ByteStep;
    assert ([b] + data)[1..] == data;
  }

  /** The published values for the empty buffer and for one zero byte, which pin
      the polynomial, the bit order and both inversions. */
  lemma CheckValues()
    ensures Crc32([]) == 0 && Crc32([0]) == 0xD202EF8D
  {
    hide ByteStep;
    ZeroStep();
    CrcCons(4294967295, 0, []);
    assert [0] + [] == [0];
  }

  /** A zero byte in front of a buffer changes its checksum, whatever the buffer, so
      a run of zeros does not pass for nothing. */
  lemma LeadingZeroCounts(data: seq<byte>)
    ensures Crc32([0] + data) != Crc32(data)
  {
    hide ByteStep, CrcFrom, Serial, MessageBits;
    ZeroStep();
    CrcCons(4294967295, 0, data);
    if CrcFrom(4294967295, data) == CrcFrom(771559538, data) {
      TableIsDivision(4294967295, data);
      TableIsDivision(771559538, data);
      BitsAreBits(data);
      SerialInjective(4294967295, 771559538, MessageBits(data));
      assert false;
    }
    CrcBound(4294967295, data);
    CrcBound(771559538, data);
  }
}
