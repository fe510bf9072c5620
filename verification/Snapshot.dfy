/** Snapshot files (include/ome/snapshot.hpp): a 44-byte header with a checksum
    of the body, then one 45-byte record per resting order in book order. */
module Snapshots {
  import opened Orders
  import opened Crc
  import opened Codec
  import opened WriteAheadLog

  const MAGIC := 0x53454D4F
  const VERSION := 1
  const SNAPSHOT_HEADER := 44
  const ORDER_SIZE := 45
  const SNAPSHOT_WIDTHS: seq<nat> := [4, 4, 8, 8, 8, 8, 4]
  const ORDER_WIDTHS: seq<nat> := [8, 8, 8, 8, 4, 1, 8]

  datatype SnapshotOrder = SnapshotOrder(id: nat, session: nat, clientId: nat, price: int, quantity: nat,
                                         side: Side, timestamp: nat)

  datatype SnapshotData = SnapshotData(lastSeq: nat, lastTrade: int, nextId: nat, orders: seq<SnapshotOrder>)

  function OrderValues(o: SnapshotOrder): seq<nat> {
    [o.id, o.session, o.clientId, ToBits(o.price), o.quantity, if o.side.Bid? then 0 else 1, o.timestamp]
  }

  function EncodeOrder(o: SnapshotOrder): seq<byte> {
    Encode(Zip(OrderValues(o), ORDER_WIDTHS))
  }

  function EncodeBody(os: seq<SnapshotOrder>): seq<byte> {
    if os == [] then [] else EncodeOrder(os[0]) + EncodeBody(os[1..])
  }

  function HeaderValues(d: SnapshotData, crc: nat): seq<nat> {
    [MAGIC, VERSION, d.lastSeq, |d.orders|, ToBits(d.lastTrade), d.nextId, crc]
  }

  function EncodeHeader(d: SnapshotData, crc: nat): seq<byte> {
    Encode(Zip(HeaderValues(d, crc), SNAPSHOT_WIDTHS))
  }

  function EncodeSnapshot(d: SnapshotData): seq<byte> {
    var body := EncodeBody(d.orders);
    EncodeHeader(d, Crc32(body)) + body
  }

  function OrderFrom(v: seq<nat>): Option<SnapshotOrder>
    requires |v| == 7
  {
    if v[5] > 1 then None
    else Some(SnapshotOrder(v[0], v[1], v[2], FromBits(v[3]), v[4], if v[5] == 0 then Bid else Ask, v[6]))
  }

  /** Reads `count` order records from the front of a body. */
  function DecodeBody(body: seq<byte>, count: nat): Option<seq<SnapshotOrder>>
    decreases count
  {
    if count == 0 then Some([])
    else
      var p := Decode(body, ORDER_WIDTHS);
      if p.None? then None
      else
        var o, tail := OrderFrom(p.value.values), DecodeBody(p.value.rest, count - 1);
        if o.None? || tail.None? then None else Some([o.value] + tail.value)
  }

  /** None for a file that is short, foreign, or fails its checksum. */
  function ReadSnapshot(buf: seq<byte>): Option<SnapshotData> {
    var h := Decode(buf, SNAPSHOT_WIDTHS);
    if h.None? then None
    else
      var v, body := h.value.values, h.value.rest;
      if v[0] != MAGIC || v[1] != VERSION then None
      else if v[3] > |body| / ORDER_SIZE then None
      else if Crc32(body) != v[6] then None
      else
        var os := DecodeBody(body, v[3]);
        if os.None? then None else Some(SnapshotData(v[2], FromBits(v[4]), v[5], os.value))
  }

  predicate OrderInRange(o: SnapshotOrder) {
    && o.id < U64_RANGE && o.session < U64_RANGE && o.clientId < U64_RANGE && IsI64(o.price)
    && o.quantity < 0x1_0000_0000 && o.timestamp < U64_RANGE
  }

  ghost predicate OrdersInRange(os: seq<SnapshotOrder>) {
    os == [] || (OrderInRange(os[0]) && OrdersInRange(os[1..]))
  }

  ghost predicate SnapshotInRange(d: SnapshotData) {
    && d.lastSeq < U64_RANGE && IsI64(d.lastTrade) && d.nextId < U64_RANGE && |d.orders| < U64_RANGE
    && OrdersInRange(d.orders)
  }

  lemma SnapshotTotals()
    ensures Total(SNAPSHOT_WIDTHS) == SNAPSHOT_HEADER && Total(ORDER_WIDTHS) == ORDER_SIZE
  {
    assert SNAPSHOT_WIDTHS[1..] == [4, 8, 8, 8, 8, 4];
    assert [4, 8, 8, 8, 8, 4][1..] == [8, 8, 8, 8, 4];
    assert [8, 8, 8, 8, 4][1..] == [8, 8, 8, 4];
    assert [8, 8, 8, 4][1..] == [8, 8, 4];
    assert Total([8, 8, 4]) == 20 by {
      assert [8, 8, 4][1..] == [8, 4];
      assert [8, 4][1..] == [4];
    }
    OrderTotal();
  }

  lemma OrderTotal()
    ensures Total(ORDER_WIDTHS) == ORDER_SIZE
  {
    assert ORDER_WIDTHS[1..] == [8, 8, 8, 4, 1, 8];
    assert [8, 8, 8, 4, 1, 8][1..] == [8, 8, 4, 1, 8];
    assert [8, 8, 4, 1, 8][1..] == [8, 4, 1, 8];
    assert Total([8, 4, 1, 8]) == 21 by {
      assert [8, 4, 1, 8][1..] == [4, 1, 8];
      assert [4, 1, 8][1..] == [1, 8];
      assert [1, 8][1..] == [8];
    }
  }

  lemma OrderFits(o: SnapshotOrder)
    requires OrderInRange(o)
    ensures FitsWidths(OrderValues(o), ORDER_WIDTHS) && OrderFrom(OrderValues(o)) == Some(o)
  {
    RangeValues();
    hide Range;
    TwosComplement(o.price, 0);
  }

  lemma {:induction false} BodyRoundTrip(os: seq<SnapshotOrder>)
    requires OrdersInRange(os)
    ensures DecodeBody(EncodeBody(os), |os|) == Some(os) && |EncodeBody(os)| == ORDER_SIZE * |os|
  {
    hide Decode, Encode, Zip, OrderFrom, FitsWidths;
    if os != [] {
      assert os == [os[0]] + os[1..];
      OrderFits(os[0]);
      OrderTotal();
      ZipRoundTrip(OrderValues(os[0]), ORDER_WIDTHS, EncodeBody(os[1..]));
      BodyRoundTrip(os[1..]);
    }
  }

  lemma HeaderValuesFit(d: SnapshotData, crc: nat)
    requires SnapshotInRange(d) && crc < 0x1_0000_0000
    ensures FitsWidths(HeaderValues(d, crc), SNAPSHOT_WIDTHS) && FromBits(ToBits(d.lastTrade)) == d.lastTrade
  {
    RangeValues();
    hide Range, OrdersInRange;
    TwosComplement(d.lastTrade, 0);
  }

  lemma SnapshotHeaderRoundTrip(d: SnapshotData, crc: nat, body: seq<byte>)
    requires SnapshotInRange(d) && crc < 0x1_0000_0000
    ensures Decode(EncodeHeader(d, crc) + body, SNAPSHOT_WIDTHS) == Some(Parsed(HeaderValues(d, crc), body))
    ensures |EncodeHeader(d, crc)| == SNAPSHOT_HEADER
    ensures FromBits(ToBits(d.lastTrade)) == d.lastTrade
  {
    hide Decode, Encode, Zip, FitsWidths, OrdersInRange;
    HeaderValuesFit(d, crc);
    SnapshotTotals();
    ZipRoundTrip(HeaderValues(d, crc), SNAPSHOT_WIDTHS, body);
  }

  /** Every snapshot survives its file. */
  lemma SnapshotRoundTrip(d: SnapshotData)
    requires SnapshotInRange(d)
    ensures ReadSnapshot(EncodeSnapshot(d)) == Some(d)
  {
    hide Decode, DecodeBody, EncodeBody, EncodeHeader, Crc32, OrdersInRange;
    var body := EncodeBody(d.orders);
    CrcFits(body);
    SnapshotHeaderRoundTrip(d, Crc32(body), body);
    BodyRoundTrip(d.orders);
  }

  lemma OrderBack(v: seq<nat>)
    requires |v| == 7 && FitsWidths(v, ORDER_WIDTHS) && OrderFrom(v).Some?
    ensures OrderInRange(OrderFrom(v).value) && OrderValues(OrderFrom(v).value) == v
  {
    RangeValues();
    hide Range;
    TwosComplement(0, v[3]);
    hide ToBits, FromBits;
  }

  lemma {:induction false} BodyCanonical(body: seq<byte>, count: nat)
    requires DecodeBody(body, count).Some?
    ensures var os := DecodeBody(body, count).value; |os| == count && OrdersInRange(os) && EncodeBody(os) <= body
    decreases count
  {
    hide Decode, Encode, Zip, OrderFrom, OrderValues, OrderInRange, FitsWidths;
    if count > 0 {
      var p := Decode(body, ORDER_WIDTHS).value;
      DecodeFits(body, ORDER_WIDTHS);
      EncodeDecode(body, ORDER_WIDTHS);
      OrderBack(p.values);
      BodyCanonical(p.rest, count - 1);
      var os := DecodeBody(p.rest, count - 1).value;
      var o := OrderFrom(p.values).value;
      assert ([o] + os)[1..] == os;
      assert p.rest == EncodeBody(os) + p.rest[|EncodeBody(os)|..];
      assert body == EncodeOrder(o) + EncodeBody(os) + p.rest[|EncodeBody(os)|..];
    }
  }

  lemma HeaderBack(v: seq<nat>)
    requires |v| == 7 && FitsWidths(v, SNAPSHOT_WIDTHS)
    ensures v[2] < U64_RANGE && v[3] < U64_RANGE && v[5] < U64_RANGE
    ensures IsI64(FromBits(v[4])) && ToBits(FromBits(v[4])) == v[4]
  {
    RangeValues();
    hide Range;
    TwosComplement(0, v[4]);
  }

  /** Whatever reads back was written as such: the header is that of the data read,
      over the checksum of everything behind it, and the orders come first there.
      Bytes behind the last order are tolerated, as long as the checksum has them. */
  lemma SnapshotCanonical(buf: seq<byte>)
    requires ReadSnapshot(buf).Some?
    ensures var d := ReadSnapshot(buf).value;
            && SnapshotInRange(d) && |buf| >= SNAPSHOT_HEADER
            && buf[..SNAPSHOT_HEADER] == EncodeHeader(d, Crc32(buf[SNAPSHOT_HEADER..]))
            && EncodeBody(d.orders) <= buf[SNAPSHOT_HEADER..]
  {
    hide Decode, DecodeBody, EncodeBody, Encode, Zip, Crc32, OrdersInRange, FitsWidths, FromBits, ToBits;
    SnapshotTotals();
    var h := Decode(buf, SNAPSHOT_WIDTHS).value;
    DecodeFits(buf, SNAPSHOT_WIDTHS);
    EncodeDecode(buf, SNAPSHOT_WIDTHS);
    HeaderBack(h.values);
    BodyCanonical(h.rest, h.values[3]);
    var d := ReadSnapshot(buf).value;
    assert h.values == HeaderValues(d, Crc32(h.rest));
    assert |EncodeHeader(d, Crc32(h.rest))| + |h.rest| == |buf|;
  }

  lemma ShortBodyRefused(d: SnapshotData, crc: nat, part: seq<byte>)
    requires SnapshotInRange(d) && crc < 0x1_0000_0000 && |part| < ORDER_SIZE * |d.orders|
    ensures ReadSnapshot(EncodeHeader(d, crc) + part).None?
  {
    hide Decode, DecodeBody, EncodeHeader, Crc32, OrdersInRange;
    SnapshotHeaderRoundTrip(d, crc, part);
  }

  /** A file cut short anywhere is refused. */
  lemma CutSnapshotRefused(d: SnapshotData, k: nat)
    requires SnapshotInRange(d) && k < |EncodeSnapshot(d)|
    ensures ReadSnapshot(EncodeSnapshot(d)[..k]).None?
  {
    hide Decode, DecodeBody, EncodeBody, EncodeHeader, Crc32, OrdersInRange;
    var body := EncodeBody(d.orders);
    CrcFits(body);
    SnapshotTotals();
    BodyRoundTrip(d.orders);
    SnapshotHeaderRoundTrip(d, Crc32(body), []);
    if k >= SNAPSHOT_HEADER {
      var part := body[..k - SNAPSHOT_HEADER];
      ShortBodyRefused(d, Crc32(body), part);
      assert EncodeSnapshot(d)[..k] == EncodeHeader(d, Crc32(body)) + part;
    }
  }

  /** A body altered within any 32 consecutive bits is refused. */
  lemma CorruptSnapshotRefused(d: SnapshotData, bad: seq<byte>, at: nat, n: nat)
    requires SnapshotInRange(d)
    requires var body := EncodeBody(d.orders);
             && |bad| == |body| && bad != body && n <= 32 && at + n <= 8 * |bad|
             && MessageBits(bad)[..at] == MessageBits(body)[..at]
             && MessageBits(bad)[at + n..] == MessageBits(body)[at + n..]
    ensures ReadSnapshot(EncodeHeader(d, Crc32(EncodeBody(d.orders))) + bad).None?
  {
    hide Decode, DecodeBody, EncodeBody, EncodeHeader, Crc32, OrdersInRange, MessageBits;
    var body := EncodeBody(d.orders);
    CrcFits(body);
    DetectsBurst(bad, body, at, n);
    SnapshotHeaderRoundTrip(d, Crc32(body), bad);
  }

  // ----- the reader ---------------------------------------------------------

  method ReadSnapshotBytes(buf: seq<byte>) returns (d: Option<SnapshotData>)
    ensures d == ReadSnapshot(buf)
  {
    var r := new Reader(buf);
    var v := r.ReadFields(SNAPSHOT_WIDTHS);
    assert buf[0..] == buf;
    if !r.ok || v[0] != MAGIC || v[1] != VERSION {
      return None;
    }
    var body := buf[r.pos..];
    if v[3] > |body| / ORDER_SIZE {
      return None;
    }
    var crc := ComputeCrc32(body, 0);
    if crc != v[6] {
      return None;
    }
    var os := ReadOrders(body, v[3]);
    d := if os.None? then None else Some(SnapshotData(v[2], FromBits(v[4]), v[5], os.value));
  }

  method ReadOrders(body: seq<byte>, count: nat) returns (os: Option<seq<SnapshotOrder>>)
    ensures os == DecodeBody(body, count)
  {
    hide Decode, DecodeBody, OrderFrom, Prepend;
    var r := new Reader(body);
    assert body[0..] == body;
    var out: seq<SnapshotOrder> := [];
    var left: nat := count;
    PrependNone(DecodeBody(body, count));
    while left > 0
      invariant r.Valid() && r.ok && r.data == body
      invariant DecodeBody(body, count) == Prepend(out, DecodeBody(body[r.pos..], left))
    {
      DecodeBodyStep(out, body[r.pos..], left);
      var v := r.ReadFields(ORDER_WIDTHS);
      if !r.ok {
        return None;
      }
      var o := OrderFrom(v);
      if o.None? {
        return None;
      }
      out := out + [o.value];
      left := left - 1;
    }
    DecodeBodyEnd(out, body[r.pos..]);
    return Some(out);
  }

  ghost function Prepend(a: seq<SnapshotOrder>, b: Option<seq<SnapshotOrder>>): Option<seq<SnapshotOrder>> {
    if b.None? then None else Some(a + b.value)
  }

  lemma PrependNone(b: Option<seq<SnapshotOrder>>)
    ensures Prepend([], b) == b
  {
    if b.Some? {
      assert [] + b.value == b.value;
    }
  }

  /** One order record read moves from the body to the output. */
  lemma DecodeBodyStep(out: seq<SnapshotOrder>, body: seq<byte>, count: nat)
    requires count > 0
    ensures var p := Decode(body, ORDER_WIDTHS);
            Prepend(out, DecodeBody(body, count)) ==
            if p.None? || OrderFrom(p.value.values).None? then None
            else Prepend(out + [OrderFrom(p.value.values).value], DecodeBody(p.value.rest, count - 1))
  {
    hide Decode, OrderFrom;
    var p := Decode(body, ORDER_WIDTHS);
    if p.Some? && OrderFrom(p.value.values).Some? {
      var o, tail := OrderFrom(p.value.values).value, DecodeBody(p.value.rest, count - 1);
      if tail.Some? {
        assert out + [o] + tail.value == out + ([o] + tail.value);
      }
    }
  }

  lemma DecodeBodyEnd(out: seq<SnapshotOrder>, body: seq<byte>)
    ensures Prepend(out, DecodeBody(body, 0)) == Some(out)
  {
    assert out + [] == out;
  }
}
