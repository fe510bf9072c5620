/** The documented byte formats: messages and frames (docs/PROTOCOL.md), log records
    (include/ome/wal.hpp) and snapshot files (include/ome/snapshot.hpp), field by
    field and little-endian. */
module Layouts {
  import opened Orders
  import opened Crc
  import opened Codec
  import opened ThreadSpec
  import opened WriteAheadLog
  import opened Snapshots
  import opened Protocol
  import opened Frames

  /** One piece after the other. */
  function Join(parts: seq<seq<byte>>): seq<byte> {
    if parts == [] then [] else parts[0] + Join(parts[1..])
  }

  function Parts(vs: seq<nat>, ws: seq<nat>): (r: seq<seq<byte>>)
    requires |vs| == |ws|
    ensures |r| == |vs| && forall i :: 0 <= i < |vs| ==> r[i] == Put(vs[i], ws[i])
  {
    if vs == [] then [] else [Put(vs[0], ws[0])] + Parts(vs[1..], ws[1..])
  }

  lemma {:induction false} Joined(vs: seq<nat>, ws: seq<nat>)
    requires |vs| == |ws|
    ensures Encode(Zip(vs, ws)) == Join(Parts(vs, ws))
  {
    hide Put;
    if vs != [] {
      assert Zip(vs, ws)[1..] == Zip(vs[1..], ws[1..]) && Parts(vs, ws)[1..] == Parts(vs[1..], ws[1..]);
      Joined(vs[1..], ws[1..]);
    }
  }

  function SideByte(s: Side): nat {
    if s.Bid? then 0 else 1
  }

  function KindByte(market: bool): nat {
    if market then 0 else 1
  }

  /** Type code and payload of every message but the book update. */
  lemma MessageLayout(m: Message)
    requires !m.BookUpdateMsg?
    ensures match m
            case NewOrderMsg(c, p, q, s, market) =>
              && CodeOf(m) == 1
              && Payload(m) == Join([Put(c, 8), Put(ToBits(p), 8), Put(q, 4), Put(SideByte(s), 1),
                                     Put(KindByte(market), 1)])
            case CancelMsg(c) => CodeOf(m) == 2 && Payload(m) == Join([Put(c, 8)])
            case ModifyMsg(c, p, q) => CodeOf(m) == 3 && Payload(m) == Join([Put(c, 8), Put(ToBits(p), 8), Put(q, 4)])
            case SubscribeMsg(d) => CodeOf(m) == 4 && Payload(m) == Join([Put(d, 1)])
            case AckMsg(c, x) => CodeOf(m) == 10 && Payload(m) == Join([Put(c, 8), Put(x, 8)])
            case RejectMsg(c, r) => CodeOf(m) == 11 && Payload(m) == Join([Put(c, 8), Put(r, 2)])
            case FillMsg(x, p, q, r) =>
              CodeOf(m) == 12 && Payload(m) == Join([Put(x, 8), Put(ToBits(p), 8), Put(q, 4), Put(r, 4)])
            case HeartbeatMsg(t) => CodeOf(m) == 14 && Payload(m) == Join([Put(t, 8)])
  {
    hide Put, Encode, Zip, ToBits, Join;
    var vs, ws := FixedValues(m), FixedWidths(CodeOf(m));
    Joined(vs, ws);
    match m
    case NewOrderMsg(c, p, q, s, market) =>
      assert Parts(vs, ws) == [Put(c, 8), Put(ToBits(p), 8), Put(q, 4), Put(SideByte(s), 1), Put(KindByte(market), 1)];
    case CancelMsg(c) => assert Parts(vs, ws) == [Put(c, 8)];
    case ModifyMsg(c, p, q) => assert Parts(vs, ws) == [Put(c, 8), Put(ToBits(p), 8), Put(q, 4)];
    case SubscribeMsg(d) => assert Parts(vs, ws) == [Put(d, 1)];
    case AckMsg(c, x) => assert Parts(vs, ws) == [Put(c, 8), Put(x, 8)];
    case RejectMsg(c, r) => assert Parts(vs, ws) == [Put(c, 8), Put(r, 2)];
    case FillMsg(x, p, q, r) => assert Parts(vs, ws) == [Put(x, 8), Put(ToBits(p), 8), Put(q, 4), Put(r, 4)];
    case HeartbeatMsg(t) => assert Parts(vs, ws) == [Put(t, 8)];
  }

  /** A level is its price and its quantity. */
  function LevelBytes(ls: seq<BookLevel>): seq<byte> {
    if ls == [] then [] else Put(ToBits(ls[0].price), 8) + (Put(ls[0].quantity, 8) + LevelBytes(ls[1..]))
  }

  lemma {:induction false} LevelsLayout(ls: seq<BookLevel>)
    ensures Encode(Zip(LevelValues(ls), Eights(2 * |ls|))) == LevelBytes(ls)
  {
    if ls != [] {
      var p, q := ToBits(ls[0].price), ls[0].quantity;
      var vs, ws := LevelValues(ls[1..]), Eights(2 * |ls[1..]|);
      assert Eights(2 * |ls|) == [8] + ([8] + ws);
      assert LevelValues(ls) == [p] + ([q] + vs);
      hide Put, Encode, Zip, ToBits, LevelValues, Eights;
      LevelsLayout(ls[1..]);
      EncodeCons(p, 8, [q] + vs, [8] + ws);
      EncodeCons(q, 8, vs, ws);
    }
  }

  /** A book update: its number, the two counts, then at most ten bids and at most
      ten asks, best first. */
  lemma BookLayout(m: Message)
    requires m.BookUpdateMsg?
    ensures var b, a := Top(m.bids), Top(m.asks);
            && CodeOf(m) == 13 && |b| <= 10 && |a| <= 10 && b <= m.bids && a <= m.asks
            && Payload(m) == Join([Put(m.seqno, 8), Put(|b|, 1), Put(|a|, 1)]) + LevelBytes(b + a)
  {
    hide Put, Encode, Zip, LevelValues, Eights, LevelBytes, Join;
    var b, a := Top(m.bids), Top(m.asks);
    Joined([m.seqno, |b|, |a|], COUNT_WIDTHS);
    assert Parts([m.seqno, |b|, |a|], COUNT_WIDTHS) == [Put(m.seqno, 8), Put(|b|, 1), Put(|a|, 1)];
    LevelsLayout(b + a);
  }

  /** A frame: length, type, version, payload. */
  lemma FrameLayout(f: Frame)
    ensures FrameBytes(f) == Join([Put(|f.payload|, 4), Put(f.code, 2), Put(f.version, 2)]) + f.payload
  {
    hide Put, Encode, Zip, Join;
    var vs := [|f.payload|, f.code, f.version];
    Joined(vs, FRAME_WIDTHS);
    assert Parts(vs, FRAME_WIDTHS) == [Put(|f.payload|, 4), Put(f.code, 2), Put(f.version, 2)];
  }

  /** The payload of a log record: a byte for the type, then the command's fields. */
  function CommandBytes(c: Command): seq<byte> {
    var code := match c.what
      case SessionOpened => 0
      case NewOrder => 1
      case CancelOrder => 2
      case ModifyOrder => 3
      case Subscribe => 4
      case CancelAll => 5;
    Join([Put(code, 1), Put(c.session, 8), Put(c.clientId, 8), Put(ToBits(c.price), 8), Put(c.quantity, 4),
          Put(SideByte(c.side), 1), Put(KindByte(c.market), 1)])
  }

  lemma CommandLayout(c: Command)
    ensures EncodeCommand(c) == CommandBytes(c)
  {
    hide Put, Encode, Zip, ToBits, Join;
    var vs := CommandValues(c);
    Joined(vs, COMMAND_WIDTHS);
    assert Parts(vs, COMMAND_WIDTHS) ==
           [Put(TypeCode(c.what), 1), Put(c.session, 8), Put(c.clientId, 8), Put(ToBits(c.price), 8),
            Put(c.quantity, 4), Put(SideByte(c.side), 1), Put(KindByte(c.market), 1)];
  }

  /** A log record: length, checksum of the payload, number; then the payload. */
  lemma RecordLayout(n: nat, c: Command)
    requires InRange(c)
    ensures Record(n, c) == Join([Put(31, 4), Put(Crc32(CommandBytes(c)), 4), Put(n, 8)]) + CommandBytes(c)
  {
    hide Put, Encode, Zip, Crc32, Join, EncodeCommand, DecodeCommand, CommandBytes, InRange;
    CommandRoundTrip(c);
    CommandLayout(c);
    var vs := [PAYLOAD, Crc32(CommandBytes(c)), n];
    Joined(vs, HEADER_WIDTHS);
    assert Parts(vs, HEADER_WIDTHS) == [Put(31, 4), Put(Crc32(CommandBytes(c)), 4), Put(n, 8)];
  }

  function OrderBytes(os: seq<SnapshotOrder>): seq<byte> {
    if os == [] then []
    else
      var o := os[0];
      Join([Put(o.id, 8), Put(o.session, 8), Put(o.clientId, 8), Put(ToBits(o.price), 8), Put(o.quantity, 4),
            Put(SideByte(o.side), 1), Put(o.timestamp, 8)]) + OrderBytes(os[1..])
  }

  lemma {:induction false} BodyLayout(os: seq<SnapshotOrder>)
    ensures EncodeBody(os) == OrderBytes(os)
  {
    hide Put, Encode, Zip, ToBits, Join;
    if os != [] {
      var o := os[0];
      Joined(OrderValues(o), ORDER_WIDTHS);
      assert Parts(OrderValues(o), ORDER_WIDTHS) ==
             [Put(o.id, 8), Put(o.session, 8), Put(o.clientId, 8), Put(ToBits(o.price), 8), Put(o.quantity, 4),
              Put(SideByte(o.side), 1), Put(o.timestamp, 8)];
      BodyLayout(os[1..]);
    }
  }

  /** A snapshot: magic number, version, the last command covered, order count, last
      trade, next exchange id, checksum of the orders; then the orders. */
  lemma SnapshotLayout(d: SnapshotData)
    ensures var body := OrderBytes(d.orders);
            EncodeSnapshot(d) ==
            Join([Put(0x53454D4F, 4), Put(1, 4), Put(d.lastSeq, 8), Put(|d.orders|, 8), Put(ToBits(d.lastTrade), 8),
                  Put(d.nextId, 8), Put(Crc32(body), 4)]) + body
  {
    hide Put, Encode, Zip, ToBits, Crc32, EncodeBody, OrderBytes, Join;
    BodyLayout(d.orders);
    var crc := Crc32(OrderBytes(d.orders));
    Joined(HeaderValues(d, crc), SNAPSHOT_WIDTHS);
    assert Parts(HeaderValues(d, crc), SNAPSHOT_WIDTHS) ==
           [Put(0x53454D4F, 4), Put(1, 4), Put(d.lastSeq, 8), Put(|d.orders|, 8), Put(ToBits(d.lastTrade), 8),
            Put(d.nextId, 8), Put(crc, 4)];
  }
}
