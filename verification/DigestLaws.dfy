/** What the book fingerprint can tell apart (digest in src/order_book.cpp and in
    tools/wal_verify.cpp): books that differ in one price, total or count, as long
    as the two values differ within four consecutive bytes. */
module DigestLaws {
  import opened Orders
  import opened FlatBook
  import opened Levels
  import opened Bits
  import opened Digests

  // ----- one byte -----------------------------------------------------------

  /** The prime is odd: 14886173955864302971 undoes it modulo 2^64. */
  lemma NoMultiple(x: int, t: int)
    requires x * FNV_PRIME == t * WORD && -WORD < x < WORD
    ensures x == 0
  {
    assert x == WORD * (t * 14886173955864302971 - x * 887285111055);
  }

  lemma TimesPrimeInjective(x: nat, y: nat)
    requires x < WORD && y < WORD && (x * FNV_PRIME) % WORD == (y * FNV_PRIME) % WORD
    ensures x == y
  {
    NoMultiple(x - y, (x * FNV_PRIME) / WORD - (y * FNV_PRIME) / WORD);
  }

  function Shr(x: nat, k: nat): nat {
    if k == 0 then x else Shr(x / 2, k - 1)
  }

  lemma {:induction false} XorLow(h: nat, b: nat, k: nat)
    requires Shr(b, k) == 0
    ensures Shr(Xor(h, b), k) == Shr(h, k)
    decreases k
  {
    if k == 0 {
      XorIdentity(h);
    } else {
      XorUnfold(h, b);
      hide Xor;
      XorLow(h / 2, b / 2, k - 1);
    }
  }

  lemma ShrTwo(x: nat, k: nat)
    requires k >= 2
    ensures Shr(x, k) == Shr(x / 4, k - 2)
  {
    assert Shr(x, k) == Shr(x / 2, k - 1) == Shr(x / 2 / 2, k - 2);
    assert x / 2 / 2 == x / 4;
  }

  lemma ShrByte(x: nat)
    ensures Shr(x, 8) == x / 256
  {
    hide Shr;
    ShrTwo(x, 8);
    ShrTwo(x / 4, 6);
    ShrTwo(x / 4 / 4, 4);
    ShrTwo(x / 4 / 4 / 4, 2);
    ShrNone(x / 4 / 4 / 4 / 4);
    assert x / 4 / 4 == x / 16 && x / 16 / 4 == x / 64 && x / 64 / 4 == x / 256;
  }

  lemma ShrNone(x: nat)
    ensures Shr(x, 0) == x
  {
  }

  /** Mixing a byte in changes nothing above the low byte before it multiplies. */
  lemma XorByte(h: nat, b: nat)
    requires b < 256 && h < WORD
    ensures Xor(h, b) / 256 == h / 256 && Xor(h, b) < WORD && -256 < Xor(h, b) - h < 256
  {
    ShrByte(b);
    ShrByte(h);
    ShrByte(Xor(h, b));
    XorLow(h, b, 8);
  }

  lemma XorSame(h: nat, a: nat, b: nat)
    ensures Xor(h, a) == Xor(h, b) ==> a == b
    ensures Xor(a, h) == Xor(b, h) ==> a == b
  {
    XorComm(a, h);
    XorComm(b, h);
    if Xor(h, a) == Xor(h, b) {
      XorCancel(h, a, b);
    }
  }

  /** The byte step is injective in the state and in the byte. */
  lemma MixByteInjective(h: nat, g: nat, a: nat, b: nat)
    requires h < WORD && g < WORD && a < 256 && b < 256 && MixByte(h, a) == MixByte(g, b)
    ensures Xor(h, a) == Xor(g, b) && (h == g <==> a == b)
  {
    XorByte(h, a);
    XorByte(g, b);
    TimesPrimeInjective(Xor(h, a), Xor(g, b));
    if h == g {
      XorSame(h, a, b);
    }
    if a == b {
      XorSame(a, h, g);
    }
  }

  // ----- one word -----------------------------------------------------------

  lemma {:induction false} MixBytesInjective(h: nat, g: nat, v: nat, n: nat)
    requires h < WORD && g < WORD && MixBytes(h, v, n) == MixBytes(g, v, n)
    ensures h == g
    decreases n
  {
    if n > 0 {
      MixBytesInjective(MixByte(h, v % 256), MixByte(g, v % 256), v / 256, n - 1);
      MixByteInjective(h, g, v % 256, v % 256);
    }
  }

  /** For every value the digest is injective in what was mixed before it. */
  lemma MixInjectiveInState(h: nat, g: nat, v: int)
    requires h < WORD && g < WORD && Mix(h, v) == Mix(g, v)
    ensures h == g
  {
    MixBytesInjective(h, g, v % WORD, 8);
  }

  /** Differences of four consecutive byte steps: each multiplies by 2^40 + 435 and
      can correct the last byte only, which never cancels. */
  lemma StepsCannotCancel(d: int, e1: int, e2: int, c: int, k: int)
    requires ((d * FNV_PRIME + e1) * FNV_PRIME + e2) * FNV_PRIME - c == k * WORD
    requires -256 < d < 256 && -511 < e1 < 511 && -511 < e2 < 511 && -256 < c < 256
    ensures d == 0 && e1 == 0 && e2 == 0 && c == 0
  {
    var low := 82312875 * d + 189225 * e1 + 435 * e2 - c;
    var high := 567675 * d + 870 * e1 + e2;
    var m := k - 72057594123452416 * d - 65536 * e1;
    assert low + 0x100_0000_0000 * high == m * WORD;
    assert low == 0x100_0000_0000 * (0x100_0000 * m - high);
    assert low == 0 && high == 0x100_0000 * m;
    assert c == 435 * (189225 * d + 435 * e1 + e2);
    assert e2 == -435 * (435 * d + e1);
    var s := -(435 * d + e1);
    assert -1 <= s <= 1 && -1 <= d <= 1;
    assert high == 189225 * d - 435 * s;
  }

  function Residue(u: int): int {
    u % WORD
  }

  function Stepped(d: int): int {
    Residue(d * FNV_PRIME)
  }

  lemma StepIs(h: nat, b: nat)
    ensures Residue(MixByte(h, b)) == Stepped(Xor(h, b)) && MixByte(h, b) < WORD
  {
    hide Xor;
  }

  lemma ResidueDiff(x: int, y: int, s: int, t: int)
    requires Residue(x) == Residue(s) && Residue(y) == Residue(t)
    ensures Residue(x - y) == Residue(s - t)
  {
    var k := x / WORD - s / WORD - (y / WORD - t / WORD);
    assert x - y == s - t + k * WORD;
    ModShift(s - t, k);
  }

  lemma ModShift(u: int, k: int)
    ensures Residue(u + k * WORD) == Residue(u)
  {
    assert u + k * WORD == (u / WORD + k) * WORD + u % WORD;
  }

  /** The difference of two byte steps: u is that of their results, d that of what
      they multiply. */
  lemma StepDiff(h: nat, g: nat, a: nat, b: nat) returns (u: int, d: int)
    requires h < WORD && g < WORD && a < 256 && b < 256
    ensures u == MixByte(h, a) - MixByte(g, b) && d == Xor(h, a) - Xor(g, b)
    ensures Residue(u) == Stepped(d) && -511 < d - (h - g) < 511 && (h == g ==> -256 < d < 256)
    ensures MixByte(h, a) < WORD && MixByte(g, b) < WORD
  {
    XorByte(h, a);
    XorByte(g, b);
    var x, y := Xor(h, a), Xor(g, b);
    u, d := MixByte(h, a) - MixByte(g, b), x - y;
    StepIs(h, a);
    StepIs(g, b);
    hide Xor, MixByte, Residue;
    ResidueDiff(MixByte(h, a), MixByte(g, b), x * FNV_PRIME, y * FNV_PRIME);
    assert (x - y) * FNV_PRIME == x * FNV_PRIME - y * FNV_PRIME;
  }

  lemma Combine(d0: int, u1: int, d1: int, u2: int, d2: int, c: int)
    requires Residue(u1) == Stepped(d0) && Residue(u2) == Stepped(d1) && Residue(c) == Stepped(d2)
    requires -256 < d0 < 256 && -511 < d1 - u1 < 511 && -511 < d2 - u2 < 511 && -256 < c < 256
    ensures d0 == 0 && d1 == u1 && d2 == u2 && c == 0
  {
    var q0 := Quotient(u1, d0 * FNV_PRIME);
    var q1 := Quotient(u2, d1 * FNV_PRIME);
    var q2 := Quotient(c, d2 * FNV_PRIME);
    hide Residue;
    StepsCannotCancel(d0, d1 - u1, d2 - u2, c, q2 + q1 * FNV_PRIME + q0 * (FNV_PRIME * FNV_PRIME));
  }

  lemma Quotient(u: int, v: int) returns (q: int)
    requires Residue(u) == Residue(v)
    ensures v == u + q * WORD
  {
    q := v / WORD - u / WORD;
  }

  lemma FourSteps(h: nat, a0: nat, a1: nat, a2: nat, a3: nat, b0: nat, b1: nat, b2: nat, b3: nat)
    requires h < WORD && a0 < 256 && a1 < 256 && a2 < 256 && a3 < 256
    requires b0 < 256 && b1 < 256 && b2 < 256 && b3 < 256
    requires MixByte(MixByte(MixByte(MixByte(h, a0), a1), a2), a3) ==
             MixByte(MixByte(MixByte(MixByte(h, b0), b1), b2), b3)
    ensures a0 == b0 && a1 == b1 && a2 == b2 && a3 == b3
  {
    hide Xor, MixByte, Stepped, Residue;
    var h1, g1 := MixByte(h, a0), MixByte(h, b0);
    var h2, g2 := MixByte(h1, a1), MixByte(g1, b1);
    var h3, g3 := MixByte(h2, a2), MixByte(g2, b2);
    var u1, d0 := StepDiff(h, h, a0, b0);
    var u2, d1 := StepDiff(h1, g1, a1, b1);
    var c, d2 := StepDiff(h2, g2, a2, b2);
    LastByte(h3, g3, a3, b3);
    Combine(d0, u1, d1, u2, d2, c);
    BackSteps(h, h, a0, b0);
    BackSteps(h1, g1, a1, b1);
    BackSteps(h2, g2, a2, b2);
    BackSteps(h3, g3, a3, b3);
  }

  lemma LastByte(h: nat, g: nat, a: nat, b: nat)
    requires h < WORD && g < WORD && a < 256 && b < 256 && MixByte(h, a) == MixByte(g, b)
    ensures -256 < h - g < 256 && Xor(h, a) == Xor(g, b)
  {
    MixByteInjective(h, g, a, b);
    XorByte(h, a);
    XorByte(g, b);
    hide Xor, MixByte;
  }

  lemma BackSteps(h: nat, g: nat, a: nat, b: nat)
    ensures h == g && Xor(h, a) == Xor(g, b) ==> a == b && MixByte(h, a) == MixByte(g, b)
  {
    XorSame(h, a, b);
  }

  lemma Unroll4(h: nat, v: nat, n: nat)
    requires n >= 4
    ensures MixBytes(h, v, n) ==
            MixBytes(MixByte(MixByte(MixByte(MixByte(h, v % 256), v / 256 % 256), v / 65536 % 256), v / 16777216 % 256),
                     v / 4294967296, n - 4)
  {
    hide MixByte;
    var h1 := MixByte(h, v % 256);
    var h2 := MixByte(h1, v / 256 % 256);
    var h3 := MixByte(h2, v / 65536 % 256);
    assert MixBytes(h, v, n) == MixBytes(h1, v / 256, n - 1);
    assert MixBytes(h1, v / 256, n - 1) == MixBytes(h2, v / 256 / 256, n - 2);
    Nested(v);
    assert MixBytes(h2, v / 65536, n - 2) == MixBytes(h3, v / 65536 / 256, n - 3);
  }

  /** As words of n bytes the two agree outside four consecutive bytes. */
  predicate Close(v: nat, w: nat, n: nat)
    decreases n
  {
    n >= 4 && (v / 4294967296 == w / 4294967296 || (v % 256 == w % 256 && Close(v / 256, w / 256, n - 1)))
  }

  lemma Join(v: nat, w: nat)
    requires v % 256 == w % 256 && v / 256 == w / 256
    ensures v == w
  {
  }

  lemma SameLow(v: nat, w: nat)
    requires v % 256 == w % 256 && v / 256 % 256 == w / 256 % 256 && v / 65536 % 256 == w / 65536 % 256
    requires v / 16777216 % 256 == w / 16777216 % 256 && v / 4294967296 == w / 4294967296
    ensures v == w
  {
    Nested(v);
    Nested(w);
    Join(v / 16777216, w / 16777216);
    Join(v / 65536, w / 65536);
    Join(v / 256, w / 256);
    Join(v, w);
  }

  lemma Nested(v: nat)
    ensures v / 256 / 256 == v / 65536 && v / 65536 / 256 == v / 16777216 && v / 16777216 / 256 == v / 4294967296
  {
  }

  lemma {:induction false} CloseInjective(h: nat, v: nat, w: nat, n: nat)
    requires h < WORD && Close(v, w, n) && MixBytes(h, v, n) == MixBytes(h, w, n)
    ensures v == w
    decreases n
  {
    hide MixByte;
    if v / 4294967296 == w / 4294967296 {
      Unroll4(h, v, n);
      Unroll4(h, w, n);
      var a, b := LowMixed(h, v), LowMixed(h, w);
      hide MixBytes;
      MixBytesInjective(a, b, v / 4294967296, n - 4);
      FourSteps(h, v % 256, v / 256 % 256, v / 65536 % 256, v / 16777216 % 256,
                w % 256, w / 256 % 256, w / 65536 % 256, w / 16777216 % 256);
      SameLow(v, w);
    } else {
      StepIs(h, v % 256);
      CloseInjective(MixByte(h, v % 256), v / 256, w / 256, n - 1);
    }
  }

  function LowMixed(h: nat, v: nat): (r: nat)
    ensures r < WORD
  {
    MixByte(MixByte(MixByte(MixByte(h, v % 256), v / 256 % 256), v / 65536 % 256), v / 16777216 % 256)
  }

  /** From one state, two values that agree outside four consecutive bytes mix to
      the same state only if they are the same 64-bit word. */
  lemma MixInjective(h: nat, v: int, w: int)
    requires h < WORD && Close(v % WORD, w % WORD, 8) && Mix(h, v) == Mix(h, w)
    ensures v % WORD == w % WORD
  {
    CloseInjective(h, v % WORD, w % WORD, 8);
  }

  /** That covers any two values below 2^32. */
  lemma SmallClose(v: nat, w: nat)
    requires v < 4294967296 && w < 4294967296
    ensures Close(v % WORD, w % WORD, 8)
  {
  }

  // ----- whole books --------------------------------------------------------

  function MixAll(h: nat, vs: seq<int>): nat
    decreases vs
  {
    if vs == [] then h else MixAll(Mix(h, vs[0]), vs[1..])
  }

  function DepthValues(ds: seq<Depth>): (vs: seq<int>)
    ensures |vs| == 3 * |ds|
  {
    if ds == [] then [] else [ds[0].price, ds[0].total, ds[0].count] + DepthValues(ds[1..])
  }

  /** Everything the digest looks at, in the order in which it does. */
  function BookValues(f: Flat): seq<int> {
    var b, a := Depths(f.bids), Depths(f.asks);
    [1, |b|] + DepthValues(b) + ([2, |a|] + DepthValues(a))
  }

  lemma {:induction false} MixAllAppend(h: nat, a: seq<int>, b: seq<int>)
    ensures MixAll(h, a + b) == MixAll(MixAll(h, a), b)
    decreases a
  {
    hide Mix;
    if a == [] {
      assert a + b == b;
    } else {
      assert (a + b)[1..] == a[1..] + b;
      MixAllAppend(Mix(h, a[0]), a[1..], b);
    }
  }

  lemma MixTwo(h: nat, x: int, y: int, vs: seq<int>)
    ensures MixAll(h, [x, y] + vs) == MixAll(Mix(Mix(h, x), y), vs)
  {
    hide Mix;
    assert ([x, y] + vs)[1..] == [y] + vs && ([y] + vs)[1..] == vs;
  }

  lemma {:induction false} DepthsMixed(h: nat, ds: seq<Depth>)
    ensures MixDepths(Mix, h, ds) == MixAll(h, DepthValues(ds))
    decreases ds
  {
    hide Mix;
    if ds != [] {
      var rest := DepthValues(ds[1..]);
      MixTwo(h, ds[0].price, ds[0].total, [ds[0].count] + rest);
      assert [ds[0].price, ds[0].total, ds[0].count] + rest == [ds[0].price, ds[0].total] + ([ds[0].count] + rest);
      assert ([ds[0].count] + rest)[1..] == rest;
      DepthsMixed(Mix(Mix(Mix(h, ds[0].price), ds[0].total), ds[0].count), ds[1..]);
    }
  }

  lemma DigestIs(f: Flat)
    ensures DigestOf(f) == MixAll(FNV_OFFSET, BookValues(f))
  {
    hide Mix, Depths, MixAll, DepthValues, MixDepths;
    var b, a := Depths(f.bids), Depths(f.asks);
    var h := MixSide(Mix, FNV_OFFSET, 1, b);
    MixTwo(FNV_OFFSET, 1, |b|, DepthValues(b));
    DepthsMixed(Mix(Mix(FNV_OFFSET, 1), |b|), b);
    MixAllAppend(FNV_OFFSET, [1, |b|] + DepthValues(b), [2, |a|] + DepthValues(a));
    MixTwo(h, 2, |a|, DepthValues(a));
    DepthsMixed(Mix(Mix(h, 2), |a|), a);
  }

  lemma MixBound(h: nat, v: int)
    requires h < WORD
    ensures Mix(h, v) < WORD
  {
    MixBytesBound(h, v % WORD, 8);
  }

  lemma {:induction false} MixBytesBound(h: nat, v: nat, n: nat)
    requires h < WORD
    ensures MixBytes(h, v, n) < WORD
    decreases n
  {
    if n > 0 {
      MixBytesBound(MixByte(h, v % 256), v / 256, n - 1);
    }
  }

  lemma {:induction false} MixAllInjective(h: nat, g: nat, vs: seq<int>)
    requires h < WORD && g < WORD && MixAll(h, vs) == MixAll(g, vs)
    ensures h == g
    decreases vs
  {
    hide Mix;
    if vs != [] {
      MixBound(h, vs[0]);
      MixBound(g, vs[0]);
      MixAllInjective(Mix(h, vs[0]), Mix(g, vs[0]), vs[1..]);
      MixInjectiveInState(h, g, vs[0]);
    }
  }

  lemma SameWord(h: nat, v: int, w: int)
    ensures v % WORD == w % WORD ==> Mix(h, v) == Mix(h, w)
  {
  }

  lemma {:induction false} OneValueTells(h: nat, vs: seq<int>, i: nat, w: int)
    requires h < WORD && i < |vs| && Close(vs[i] % WORD, w % WORD, 8)
    ensures MixAll(h, vs) == MixAll(h, vs[i := w]) <==> vs[i] % WORD == w % WORD
    decreases i
  {
    hide Mix, Close;
    MixBound(h, vs[0]);
    if i == 0 {
      MixBound(h, w);
      assert vs[0 := w][1..] == vs[1..];
      SameWord(h, vs[0], w);
      if MixAll(Mix(h, vs[0]), vs[1..]) == MixAll(Mix(h, w), vs[1..]) {
        MixAllInjective(Mix(h, vs[0]), Mix(h, w), vs[1..]);
        MixInjective(h, vs[0], w);
      }
    } else {
      assert vs[i := w][1..] == vs[1..][i - 1 := w];
      OneValueTells(Mix(h, vs[0]), vs[1..], i - 1, w);
    }
  }

  /** What the digest sees of a level: its price, its total, its order count. */
  function Field(d: Depth, k: nat): int {
    if k == 0 then d.price else if k == 1 then d.total else d.count
  }

  /** The two levels differ in field k alone. */
  predicate OnlyField(d: Depth, e: Depth, k: nat) {
    && k < 3 && (k == 0 || d.price == e.price) && (k == 1 || d.total == e.total) && (k == 2 || d.count == e.count)
  }

  lemma {:induction false} ValuesUpdate(ds: seq<Depth>, i: nat, e: Depth, k: nat)
    requires i < |ds| && OnlyField(ds[i], e, k)
    ensures DepthValues(ds[i := e]) == DepthValues(ds)[3 * i + k := Field(e, k)]
    ensures DepthValues(ds)[3 * i + k] == Field(ds[i], k)
    decreases i
  {
    if i == 0 {
      assert ds[0 := e][1..] == ds[1..];
    } else {
      assert ds[i := e][1..] == ds[1..][i - 1 := e];
      ValuesUpdate(ds[1..], i - 1, e, k);
    }
  }

  /** Two books that differ in one price, total or count of one level, where the two
      values agree outside four consecutive bytes, have the same digest exactly if
      the values are the same 64-bit word.  Values below 2^32 always agree so. */
  lemma DigestTells(f: Flat, g: Flat, side: Side, i: nat, e: Depth, k: nat)
    requires var ds := Depths(f.Of(side));
             && i < |ds| && Depths(g.Of(side)) == ds[i := e] && OnlyField(ds[i], e, k)
             && Close(Field(ds[i], k) % WORD, Field(e, k) % WORD, 8)
    requires Depths(g.Of(side.Opposite())) == Depths(f.Of(side.Opposite()))
    ensures DigestOf(f) == DigestOf(g) <==> Field(Depths(f.Of(side))[i], k) % WORD == Field(e, k) % WORD
  {
    hide DigestOf, Depths, MixAll, Close, DepthValues, Field;
    DigestIs(f);
    DigestIs(g);
    var b, a := Depths(f.bids), Depths(f.asks);
    var at := if side.Bid? then 2 + 3 * i + k else 4 + 3 * |b| + 3 * i + k;
    ValuesUpdate(Depths(f.Of(side)), i, e, k);
    assert BookValues(f)[at] == Field(Depths(f.Of(side))[i], k);
    assert BookValues(g) == BookValues(f)[at := Field(e, k)];
    OneValueTells(FNV_OFFSET, BookValues(f), at, Field(e, k));
  }

  /** In particular, one price, total or count that differs below 2^32 shows. */
  lemma SmallTells(f: Flat, g: Flat, side: Side, i: nat, e: Depth, k: nat)
    requires var ds := Depths(f.Of(side));
             && i < |ds| && Depths(g.Of(side)) == ds[i := e] && OnlyField(ds[i], e, k)
             && 0 <= Field(ds[i], k) < 4294967296 && 0 <= Field(e, k) < 4294967296
    requires Depths(g.Of(side.Opposite())) == Depths(f.Of(side.Opposite()))
    ensures DigestOf(f) == DigestOf(g) <==> Depths(f.Of(side))[i] == e
  {
    hide DigestOf, Depths, Close;
    SmallClose(Field(Depths(f.Of(side))[i], k), Field(e, k));
    DigestTells(f, g, side, i, e, k);
  }

  // ----- where it stops -----------------------------------------------------

  lemma Mixed8(h: nat, v: nat, h4: nat, h8: nat)
    requires LowMixed(h, v) == h4 && LowMixed(h4, v / 4294967296) == h8
    ensures MixBytes(h, v, 8) == h8
  {
    hide MixByte;
    Unroll4(h, v, 8);
    Unroll4(h4, v / 4294967296, 4);
  }

  lemma ByteStep(h: nat, hi: nat, lo: nat, b: nat, x: nat, q: nat, n: nat)
    requires h == 256 * hi + lo && lo < 256 && b < 256 && Xor(lo, b) == x
    requires (256 * hi + x) * FNV_PRIME == q * WORD + n && n < WORD
    ensures MixByte(h, b) == n
  {
    ByteSplit(hi, lo, b);
    hide Xor;
    ModIs((256 * hi + x) * FNV_PRIME, q, n);
  }

  lemma ModIs(y: nat, q: nat, n: nat)
    requires y == q * WORD + n && n < WORD
    ensures y % WORD == n
  {
  }

  lemma Mixed4(h0: nat, h1: nat, h2: nat, h3: nat, h4: nat, v: nat)
    requires MixByte(h0, v % 256) == h1 && MixByte(h1, v / 256 % 256) == h2
    requires MixByte(h2, v / 65536 % 256) == h3 && MixByte(h3, v / 16777216 % 256) == h4
    ensures LowMixed(h0, v) == h4
  {
    hide MixByte;
  }

  lemma TagMixedLow()
    ensures LowMixed(1469598103934665603, 1) == 10473572386864919714
  {
    hide MixByte, Xor, LowMixed;
    ByteXorIs(131, 1, 130);
    ByteXorIs(230, 0, 230);
    ByteXorIs(210, 0, 210);
    ByteXorIs(214, 0, 214);
    ByteStep(1469598103934665603, 5740617593494787, 131, 1, 130, 87594872982, 4953162257141659110);
    ByteStep(4953162257141659110, 19348290066959605, 230, 0, 230, 295231476968, 11125488673309971922);
    ByteStep(11125488673309971922, 43458940130117077, 210, 0, 210, 663130800587, 11572784634033492950);
    ByteStep(11572784634033492950, 45206189976693331, 214, 0, 214, 689791717446, 10473572386864919714);
    Mixed4(1469598103934665603, 4953162257141659110, 11125488673309971922,
           11572784634033492950, 10473572386864919714, 1);
  }

  lemma TagMixedHigh()
    ensures LowMixed(10473572386864919714, 0) == 2955283251572180930
  {
    hide MixByte, Xor, LowMixed;
    ByteXorIs(162, 0, 162);
    ByteXorIs(70, 0, 70);
    ByteXorIs(242, 0, 242);
    ByteXorIs(54, 0, 54);
    ByteStep(10473572386864919714, 40912392136191092, 162, 0, 162, 624273561895, 7473251454259179334);
    ByteStep(7473251454259179334, 29192388493199919, 70, 0, 70, 445440498424, 9582993878387938290);
    ByteStep(9582993878387938290, 37433569837452883, 242, 0, 242, 571190946232, 670611261806388278);
    ByteStep(670611261806388278, 2619575241431204, 54, 0, 54, 39971546058, 2955283251572180930);
    Mixed4(10473572386864919714, 7473251454259179334, 9582993878387938290,
           670611261806388278, 2955283251572180930, 0);
  }

  lemma TagMixed()
    ensures MixBytes(1469598103934665603, 1, 8) == 2955283251572180930
  {
    hide MixBytes, LowMixed;
    TagMixedLow();
    TagMixedHigh();
    Mixed8(1469598103934665603, 1, 10473572386864919714, 2955283251572180930);
  }

  lemma SizeMixedLow()
    ensures LowMixed(2955283251572180930, 1) == 7917065529765239155
  {
    hide MixByte, Xor, LowMixed;
    ByteXorIs(194, 1, 195);
    ByteXorIs(89, 0, 89);
    ByteXorIs(59, 0, 59);
    ByteXorIs(65, 0, 65);
    ByteStep(2955283251572180930, 11544075201453831, 194, 1, 195, 176148608490, 5735471455865024601);
    ByteStep(5735471455865024601, 22404185374472752, 89, 0, 89, 341860738881, 8812582460113037115);
    ByteStep(8812582460113037115, 34424150234816551, 59, 0, 59, 525270847296, 12702546277358020929);
    ByteStep(12702546277358020929, 49619321395929769, 65, 0, 65, 757130758904, 7917065529765239155);
    Mixed4(2955283251572180930, 5735471455865024601, 8812582460113037115,
           12702546277358020929, 7917065529765239155, 1);
  }

  lemma SizeMixedHigh()
    ensures LowMixed(7917065529765239155, 0) == 8294179575111048739
  {
    hide MixByte, Xor, LowMixed;
    ByteXorIs(115, 0, 115);
    ByteXorIs(105, 0, 105);
    ByteXorIs(107, 0, 107);
    ByteXorIs(209, 0, 209);
    ByteStep(7917065529765239155, 30926037225645465, 115, 0, 115, 471893878751, 15538430832579690089);
    ByteStep(15538430832579690089, 60696995439764414, 105, 0, 105, 926162650509, 5673006661665328235);
    ByteStep(5673006661665328235, 22160182272130188, 107, 0, 107, 338137547010, 14092229789379369425);
    ByteStep(14092229789379369425, 55047772614763161, 209, 0, 209, 839962351021, 8294179575111048739);
    Mixed4(7917065529765239155, 15538430832579690089, 5673006661665328235,
           14092229789379369425, 8294179575111048739, 0);
  }

  lemma SizeMixed()
    ensures MixBytes(2955283251572180930, 1, 8) == 8294179575111048739
  {
    hide MixBytes, LowMixed;
    SizeMixedLow();
    SizeMixedHigh();
    Mixed8(2955283251572180930, 1, 7917065529765239155, 8294179575111048739);
  }

  lemma OnePriceLow()
    ensures LowMixed(8294179575111048739, 790170584608167603) == 18194836588788592659
  {
    hide MixByte, Xor, LowMixed;
    ByteXorIs(35, 179, 144);
    ByteXorIs(176, 86, 230);
    ByteXorIs(210, 136, 90);
    ByteXorIs(238, 207, 33);
    ByteStep(8294179575111048739, 32399138965277534, 35, 179, 144, 494371627473, 7060585293418704560);
    ByteStep(7060585293418704560, 27580411302416814, 176, 86, 230, 420843678487, 1245922996762980562);
    ByteStep(1245922996762980562, 4866886706105392, 210, 136, 90, 74262797668, 17122598374558017774);
    ByteStep(17122598374558017774, 66885149900617256, 238, 207, 33, 1020586394150, 18194836588788592659);
    Mixed4(8294179575111048739, 7060585293418704560, 1245922996762980562,
           17122598374558017774, 18194836588788592659, 790170584608167603);
  }

  lemma OnePriceHigh()
    ensures LowMixed(18194836588788592659, 183975925) == 446588936004366142
  {
    hide MixByte, Xor, LowMixed;
    ByteXorIs(19, 245, 230);
    ByteXorIs(210, 63, 237);
    ByteXorIs(183, 247, 64);
    ByteXorIs(192, 10, 202);
    ByteStep(18194836588788592659, 71073580424955440, 19, 245, 230, 1084496772050, 1546817752424322770);
    ByteStep(1546817752424322770, 6042256845407510, 210, 63, 237, 92197522701, 18373048691824391351);
    ByteStep(18373048691824391351, 71769721452439028, 183, 247, 64, 1095119041150, 7570878269839247552);
    ByteStep(7570878269839247552, 29573743241559560, 192, 10, 202, 451259510090, 446588936004366142);
    Mixed4(18194836588788592659, 1546817752424322770, 18373048691824391351,
           7570878269839247552, 446588936004366142, 183975925);
  }

  lemma OnePrice()
    ensures MixBytes(8294179575111048739, 790170584608167603, 8) == 446588936004366142
  {
    hide MixBytes, LowMixed;
    OnePriceLow();
    OnePriceHigh();
    Mixed8(8294179575111048739, 790170584608167603, 18194836588788592659, 446588936004366142);
  }

  lemma OtherPriceLow()
    ensures LowMixed(8294179575111048739, 3044365262192708484) == 15667800147738934062
  {
    hide MixByte, Xor, LowMixed;
    ByteXorIs(35, 132, 167);
    ByteXorIs(197, 11, 206);
    ByteXorIs(10, 137, 131);
    ByteXorIs(153, 131, 26);
    ByteStep(8294179575111048739, 32399138965277534, 35, 132, 167, 494371627473, 7060610582186153413);
    ByteStep(7060610582186153413, 27580510086664661, 197, 11, 206, 420845185815, 1267874746415861002);
    ByteStep(1267874746415861002, 4952635728186957, 10, 137, 131, 75571223909, 12988874460656154009);
    ByteStep(12988874460656154009, 50737790861938101, 153, 131, 26, 774197248565, 15667800147738934062);
    Mixed4(8294179575111048739, 7060610582186153413, 1267874746415861002,
           12988874460656154009, 15667800147738934062, 3044365262192708484);
  }

  lemma OtherPriceHigh()
    ensures LowMixed(15667800147738934062, 708821523) == 446588936004366142
  {
    hide MixByte, Xor, LowMixed;
    ByteXorIs(46, 19, 61);
    ByteXorIs(167, 194, 101);
    ByteXorIs(159, 63, 160);
    ByteXorIs(224, 42, 202);
    ByteStep(15667800147738934062, 61202344327105211, 46, 19, 61, 933873662587, 4806093880417855655);
    ByteStep(4806093880417855655, 18773804220382248, 167, 194, 101, 286465518612, 15115269363033744287);
    ByteStep(15115269363033744287, 59044020949350563, 159, 63, 160, 900940261424, 7570878269839247584);
    ByteStep(7570878269839247584, 29573743241559560, 224, 42, 202, 451259510090, 446588936004366142);
    Mixed4(15667800147738934062, 4806093880417855655, 15115269363033744287,
           7570878269839247584, 446588936004366142, 708821523);
  }

  lemma OtherPrice()
    ensures MixBytes(8294179575111048739, 3044365262192708484, 8) == 446588936004366142
  {
    hide MixBytes, LowMixed;
    OtherPriceLow();
    OtherPriceHigh();
    Mixed8(8294179575111048739, 3044365262192708484, 15667800147738934062, 446588936004366142);
  }

  /** A book that is one bid for one unit. */
  function OneBid(price: int): Flat {
    Flat([Order(1, price, 1, Bid, Limit, 1)], [])
  }

  lemma OneBidValues(price: int)
    ensures BookValues(OneBid(price)) == [1, 1] + ([price] + [1, 1, 2, 0])
  {
    var s := OneBid(price).bids;
    assert s[1..] == [];
    assert QtyAt(s, price) == 1 + QtyAt([], price) && CountAt(s, price) == 1 + CountAt([], price);
    assert Without(s, price) == Without([], price) == [];
    assert Depths(s) == [Depth(price, 1, 1)] + Depths([]);
    assert Depths(s) == [Depth(price, 1, 1)];
    assert [Depth(price, 1, 1)][1..] == [];
  }

  lemma OneBidDigest(price: nat, h: nat)
    requires price < WORD && MixBytes(8294179575111048739, price, 8) == h
    ensures DigestOf(OneBid(price)) == MixAll(h, [1, 1, 2, 0])
  {
    hide DigestOf, MixBytes, BookValues, OneBid;
    DigestIs(OneBid(price));
    OneBidValues(price);
    TagMixed();
    SizeMixed();
    MixTwo(FNV_OFFSET, 1, 1, [price] + [1, 1, 2, 0]);
    assert ([price] + [1, 1, 2, 0])[1..] == [1, 1, 2, 0];
  }

  /** Prices far enough apart can collide: these two books share a digest. */
  lemma DigestsCollide()
    ensures DigestOf(OneBid(790170584608167603)) == DigestOf(OneBid(3044365262192708484))
  {
    hide DigestOf, MixBytes, OneBid;
    OnePrice();
    OtherPrice();
    OneBidDigest(790170584608167603, 446588936004366142);
    OneBidDigest(3044365262192708484, 446588936004366142);
  }
}
