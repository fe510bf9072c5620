/** The book fingerprint (src/order_book.cpp): FNV-1a over price, total and order
    count of each level, bids best-first then asks best-first.  It is stated on
    the flat book, so any two representations of one book agree on it. */
module Digests {
  import opened Orders
  import opened FlatBook
  import opened Levels
  import opened Bits

  const WORD := 0x1_0000_0000_0000_0000
  const FNV_OFFSET := 1469598103934665603
  const FNV_PRIME := 1099511628211

  function MixByte(h: nat, b: nat): nat {
    (Xor(h, b) * FNV_PRIME) % WORD
  }

  /** FNV-1a over the n low bytes of v, least significant first, modulo 2^64. */
  function MixBytes(h: nat, v: nat, n: nat): nat
    decreases n
  {
    if n == 0 then h else MixBytes(MixByte(h, v % 256), v / 256, n - 1)
  }

  /** Mixes the eight bytes of a number, as the cast to uint64 yields them. */
  function Mix(h: nat, v: int): nat {
    MixBytes(h, v % WORD, 8)
  }

  /** What the digest sees of one level. */
  datatype Depth = Depth(price: int, total: nat, count: nat)

  function CountAt(s: seq<Order>, price: int): nat {
    if s == [] then 0 else (if s[0].price == price then 1 else 0) + CountAt(s[1..], price)
  }

  function Without(s: seq<Order>, price: int): (r: seq<Order>)
    ensures |r| <= |s|
    ensures s != [] && s[0].price == price ==> |r| < |s|
  {
    if s == [] then []
    else if s[0].price == price then Without(s[1..], price)
    else [s[0]] + Without(s[1..], price)
  }

  /** Group a flat side by price, in order of first appearance. */
  function Depths(s: seq<Order>): seq<Depth>
    decreases |s|
  {
    if s == [] then []
    else
      var p := s[0].price;
      [Depth(p, QtyAt(s, p), CountAt(s, p))] + Depths(Without(s, p))
  }

  /** The order in which a hash consumes a side; the hash itself is a parameter. */
  function MixDepths(mix: (nat, int) -> nat, h: nat, ds: seq<Depth>): nat
    decreases ds
  {
    if ds == [] then h
    else MixDepths(mix, mix(mix(mix(h, ds[0].price), ds[0].total), ds[0].count), ds[1..])
  }

  function MixSide(mix: (nat, int) -> nat, h: nat, tag: int, ds: seq<Depth>): nat {
    MixDepths(mix, mix(mix(h, tag), |ds|), ds)
  }

  function MixBook(mix: (nat, int) -> nat, h: nat, f: Flat): nat {
    MixSide(mix, MixSide(mix, h, 1, Depths(f.bids)), 2, Depths(f.asks))
  }

  /** The digest of a book, whatever holds it. */
  function DigestOf(f: Flat): nat {
    MixBook(Mix, FNV_OFFSET, f)
  }

  // ----- the level vector shows the same depths ------------------------------

  function LevelDepths(ls: seq<Level>): (r: seq<Depth>)
    ensures |r| == |ls|
  {
    if ls == [] then [] else [Depth(ls[0].price, ls[0].total, |ls[0].orders|)] + LevelDepths(ls[1..])
  }

  ghost predicate NoneAt(s: seq<Order>, price: int) {
    s == [] || (s[0].price != price && NoneAt(s[1..], price))
  }

  lemma {:induction false} NoneAtSums(s: seq<Order>, price: int)
    requires NoneAt(s, price)
    ensures QtyAt(s, price) == 0 && CountAt(s, price) == 0 && Without(s, price) == s
  {
    if s != [] {
      NoneAtSums(s[1..], price);
    }
  }

  lemma {:induction false} QueueSums(q: seq<Order>, s: seq<Order>, price: int)
    requires AllAt(q, price)
    ensures QtyAt(q + s, price) == SumQty(q) + QtyAt(s, price)
    ensures CountAt(q + s, price) == |q| + CountAt(s, price)
    ensures Without(q + s, price) == Without(s, price)
  {
    if q == [] {
      assert q + s == s;
    } else {
      assert (q + s)[1..] == q[1..] + s;
      QueueSums(q[1..], s, price);
    }
  }

  lemma {:induction false} NoneAtAppend(a: seq<Order>, b: seq<Order>, level: int, price: int)
    requires AllAt(a, level) && level != price && NoneAt(b, price)
    ensures NoneAt(a + b, price)
  {
    if a == [] {
      assert a + b == b;
    } else {
      assert (a + b)[1..] == a[1..] + b;
      NoneAtAppend(a[1..], b, level, price);
    }
  }

  lemma {:induction false} NoneAtBetter(side: Side, ls: seq<Level>, price: int)
    requires LevelsOk(side, ls) && (ls != [] ==> Better(side, price, ls[0].price))
    ensures NoneAt(Flatten(ls), price)
  {
    if ls != [] {
      NoneAtBetter(side, ls[1..], price);
      NoneAtAppend(ls[0].orders, Flatten(ls[1..]), ls[0].price, price);
    }
  }

  /** The levels are exactly the price groups of the flat list: prices, totals,
      counts and order are determined by the list alone. */
  lemma {:induction false} DepthsOfLevels(side: Side, ls: seq<Level>)
    requires LevelsOk(side, ls)
    ensures LevelDepths(ls) == Depths(Flatten(ls))
  {
    if ls != [] {
      var q, rest := ls[0].orders, Flatten(ls[1..]);
      NoneAtBetter(side, ls[1..], ls[0].price);
      NoneAtSums(rest, ls[0].price);
      QueueSums(q, rest, ls[0].price);
      DepthsOfLevels(side, ls[1..]);
    }
  }
}
