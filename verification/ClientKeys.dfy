/** The packed index key of the matching thread, key_of(session, client id):
    (session << 40) ^ (client id * 0x9E3779B97F4A7C15), all modulo 2^64. */
module ClientKeys {
  import opened Bits

  const WORD := 0x1_0000_0000_0000_0000

  function Scrambled(clientId: nat): nat {
    (clientId * 0x9E3779B97F4A7C15) % WORD
  }

  function KeyOf(session: nat, clientId: nat): nat {
    Xor((session * 0x100_0000_0000) % WORD, Scrambled(clientId))
  }

  /** The multiplier is odd: 0xF1DE83E19937733D undoes it modulo 2^64. */
  lemma NoMultiple(x: int, t: int)
    requires x * 0x9E3779B97F4A7C15 == t * WORD
    requires -WORD < x < WORD
    ensures x == 0
  {
    assert x == WORD * (t * 0xF1DE83E19937733D - x * 0x957BBF35006ED677);
  }

  lemma ScrambledInjective(c: nat, d: nat)
    requires c < WORD && d < WORD && Scrambled(c) == Scrambled(d)
    ensures c == d
  {
    NoMultiple(c - d, (c * 0x9E3779B97F4A7C15) / WORD - (d * 0x9E3779B97F4A7C15) / WORD);
  }

  /** Within one session the key identifies the client id. */
  lemma InjectiveWithinSession(session: nat, c: nat, d: nat)
    requires c < WORD && d < WORD && KeyOf(session, c) == KeyOf(session, d)
    ensures c == d
  {
    XorCancel((session * 0x100_0000_0000) % WORD, Scrambled(c), Scrambled(d));
    ScrambledInjective(c, d);
  }

  lemma LowBits()
    ensures Xor(1, 0x9E3779) == 0x9E3778 && Xor(2, 0x9E377A) == 0x9E3778
  {
    hide Xor;
    XorUnfold(1, 0x9E3779);
    XorUnfold(2, 0x9E377A);
    XorUnfold(1, 0x4F1BBD);
    XorIdentity(0x4F1BBC);
    XorIdentity(0x278DDE);
  }

  /** Session bits meet only the top of the scrambled client id. */
  lemma KeySplit(session: nat, clientId: nat, h: nat, l: nat)
    requires session < 0x100_0000 && Scrambled(clientId) == 0x100_0000_0000 * h + l && l < 0x100_0000_0000
    ensures KeyOf(session, clientId) == 0x100_0000_0000 * Xor(session, h) + l
  {
    hide Xor, Scrambled;
    Shl40(1);
    Pow2Shl(40);
    Shl40(session);
    Shl40(h);
    Shl40(Xor(session, h));
    XorShl(session, h, l, 40);
  }

  /** Across sessions it does not: the first orders of sessions 1 and 2 can share
      a key. */
  lemma CollisionAcrossSessions()
    ensures KeyOf(1, 1) == KeyOf(2, 0x37733D0000000001)
  {
    LowBits();
    hide Xor;
    assert Scrambled(1) == 0x9E3779B97F4A7C15 == 0x100_0000_0000 * 0x9E3779 + 0xB97F4A7C15;
    assert Scrambled(0x37733D0000000001) == 0x9E377AB97F4A7C15 == 0x100_0000_0000 * 0x9E377A + 0xB97F4A7C15;
    KeySplit(1, 1, 0x9E3779, 0xB97F4A7C15);
    KeySplit(2, 0x37733D0000000001, 0x9E377A, 0xB97F4A7C15);
  }
}
