/** Wire messages and their payload codec (include/ome/protocol.hpp). */
module Protocol {
  import opened Orders
  import opened Crc
  import opened Codec
  import opened WriteAheadLog

  const MAX_DEPTH := 10

  datatype BookLevel = BookLevel(price: int, quantity: nat)

  datatype Message =
    | NewOrderMsg(clientId: nat, price: int, quantity: nat, side: Side, market: bool)
    | CancelMsg(clientId: nat)
    | ModifyMsg(clientId: nat, price: int, quantity: nat)
    | SubscribeMsg(depth: nat)
    | AckMsg(clientId: nat, orderId: nat)
    | RejectMsg(clientId: nat, reason: nat)
    | FillMsg(orderId: nat, price: int, quantity: nat, remaining: nat)
    | BookUpdateMsg(seqno: nat, bids: seq<BookLevel>, asks: seq<BookLevel>)
    | HeartbeatMsg(timestamp: nat)

  function CodeOf(m: Message): nat {
    match m
    case NewOrderMsg(_, _, _, _, _) => 1
    case CancelMsg(_) => 2
    case ModifyMsg(_, _, _) => 3
    case SubscribeMsg(_) => 4
    case AckMsg(_, _) => 10
    case RejectMsg(_, _) => 11
    case FillMsg(_, _, _, _) => 12
    case BookUpdateMsg(_, _, _) => 13
    case HeartbeatMsg(_) => 14
  }

  /** The field widths of every message but the book update. */
  function FixedWidths(code: nat): seq<nat> {
    if code == 1 then [8, 8, 4, 1, 1]
    else if code == 2 then [8]
    else if code == 3 then [8, 8, 4]
    else if code == 4 then [1]
    else if code == 10 then [8, 8]
    else if code == 11 then [8, 2]
    else if code == 12 then [8, 8, 4, 4]
    else [8]
  }

  function FixedValues(m: Message): (v: seq<nat>)
    requires !m.BookUpdateMsg?
    ensures |v| == |FixedWidths(CodeOf(m))|
  {
    match m
    case NewOrderMsg(c, p, q, s, market) =>
      [c, ToBits(p), q, if s.Bid? then 0 else 1, if market then 0 else 1]
    case CancelMsg(c) => [c]
    case ModifyMsg(c, p, q) => [c, ToBits(p), q]
    case SubscribeMsg(d) => [d]
    case AckMsg(c, x) => [c, x]
    case RejectMsg(c, r) => [c, r]
    case FillMsg(x, p, q, r) => [x, ToBits(p), q, r]
    case HeartbeatMsg(t) => [t]
  }

  function LevelValues(ls: seq<BookLevel>): (v: seq<nat>)
    ensures |v| == 2 * |ls| && |v| % 2 == 0
  {
    if ls == [] then [] else [ToBits(ls[0].price), ls[0].quantity] + LevelValues(ls[1..])
  }

  function Eights(n: nat): (w: seq<nat>)
    ensures |w| == n
  {
    if n == 0 then [] else [8] + Eights(n - 1)
  }

  function Top(ls: seq<BookLevel>): seq<BookLevel> {
    if |ls| <= MAX_DEPTH then ls else ls[..MAX_DEPTH]
  }

  const COUNT_WIDTHS: seq<nat> := [8, 1, 1]

  /** The bytes of a message; a book update sends its top ten levels a side. */
  function Payload(m: Message): seq<byte> {
    if m.BookUpdateMsg? then
      var b, a := Top(m.bids), Top(m.asks);
      Encode(Zip([m.seqno, |b|, |a|], COUNT_WIDTHS)) +
      Encode(Zip(LevelValues(b + a), Eights(2 * |b + a|)))
    else Encode(Zip(FixedValues(m), FixedWidths(CodeOf(m))))
  }

  function LevelsFrom(v: seq<nat>): (ls: seq<BookLevel>)
    requires |v| % 2 == 0
    ensures 2 * |ls| == |v|
  {
    if v == [] then [] else [BookLevel(FromBits(v[0]), v[1])] + LevelsFrom(v[2..])
  }

  function FixedFrom(code: nat, v: seq<nat>): Option<Message>
    requires |v| == |FixedWidths(code)|
  {
    if code == 1 then
      if v[3] > 1 || v[4] > 1 then None
      else Some(NewOrderMsg(v[0], FromBits(v[1]), v[2], if v[3] == 0 then Bid else Ask, v[4] == 0))
    else if code == 2 then Some(CancelMsg(v[0]))
    else if code == 3 then Some(ModifyMsg(v[0], FromBits(v[1]), v[2]))
    else if code == 4 then Some(SubscribeMsg(v[0]))
    else if code == 10 then Some(AckMsg(v[0], v[1]))
    else if code == 11 then Some(RejectMsg(v[0], v[1]))
    else if code == 12 then Some(FillMsg(v[0], FromBits(v[1]), v[2], v[3]))
    else if code == 14 then Some(HeartbeatMsg(v[0]))
    else None
  }

  function BookOf(seqno: nat, nb: nat, na: nat, data: seq<byte>): Option<Message> {
    var p := Decode(data, Eights(2 * (nb + na)));
    if p.None? || p.value.rest != [] then None
    else
      var ls := LevelsFrom(p.value.values);
      Some(BookUpdateMsg(seqno, ls[..nb], ls[nb..]))
  }

  function BookFrom(data: seq<byte>): Option<Message> {
    var h := Decode(data, COUNT_WIDTHS);
    if h.None? || h.value.values[1] > MAX_DEPTH || h.value.values[2] > MAX_DEPTH then None
    else BookOf(h.value.values[0], h.value.values[1], h.value.values[2], h.value.rest)
  }

  /** Short and overlong payloads and unknown enumerators are refused. */
  function DecodeMessage(code: nat, data: seq<byte>): Option<Message> {
    if code == 13 then BookFrom(data)
    else
      var p := Decode(data, FixedWidths(code));
      if p.None? || p.value.rest != [] then None else FixedFrom(code, p.value.values)
  }

  // ----- round trip ---------------------------------------------------------

  ghost predicate LevelsInRange(ls: seq<BookLevel>) {
    ls == [] || (IsI64(ls[0].price) && ls[0].quantity < U64_RANGE && LevelsInRange(ls[1..]))
  }

  /** The widths the C++ message structs give their fields. */
  ghost predicate MessageInRange(m: Message) {
    match m
    case NewOrderMsg(c, p, q, _, _) => c < U64_RANGE && IsI64(p) && q < 0x1_0000_0000
    case CancelMsg(c) => c < U64_RANGE
    case ModifyMsg(c, p, q) => c < U64_RANGE && IsI64(p) && q < 0x1_0000_0000
    case SubscribeMsg(d) => d < 256
    case AckMsg(c, x) => c < U64_RANGE && x < U64_RANGE
    case RejectMsg(c, r) => c < U64_RANGE && r < 65536
    case FillMsg(x, p, q, r) => x < U64_RANGE && IsI64(p) && q < 0x1_0000_0000 && r < 0x1_0000_0000
    case BookUpdateMsg(s, b, a) => s < U64_RANGE && LevelsInRange(b) && LevelsInRange(a)
    case HeartbeatMsg(t) => t < U64_RANGE
  }

  /** What the receiver sees: a book update cut to ten levels a side. */
  function Clamp(m: Message): Message {
    if m.BookUpdateMsg? then BookUpdateMsg(m.seqno, Top(m.bids), Top(m.asks)) else m
  }

  lemma FixedFits(m: Message)
    requires MessageInRange(m) && !m.BookUpdateMsg?
    ensures FitsWidths(FixedValues(m), FixedWidths(CodeOf(m)))
    ensures FixedFrom(CodeOf(m), FixedValues(m)) == Some(m)
  {
    RangeValues();
    hide Range;
    match m
    case NewOrderMsg(_, p, _, _, _) => TwosComplement(p, 0);
    case ModifyMsg(_, p, _) => TwosComplement(p, 0);
    case FillMsg(_, p, _, _) => TwosComplement(p, 0);
    case _ =>
  }

  lemma FixedRoundTrip(m: Message)
    requires MessageInRange(m) && !m.BookUpdateMsg?
    ensures DecodeMessage(CodeOf(m), Payload(m)) == Some(m)
    ensures |Payload(m)| == Total(FixedWidths(CodeOf(m)))
  {
    FixedFits(m);
    hide Decode, Encode, Zip, FixedValues, FixedFrom, FixedWidths, FitsWidths;
    ZipRoundTrip(FixedValues(m), FixedWidths(CodeOf(m)), []);
    assert Payload(m) + [] == Payload(m);
  }

  lemma PairFits(a: nat, b: nat, vs: seq<nat>, ws: seq<nat>)
    requires |vs| == |ws| && FitsWidths(vs, ws) && a < U64_RANGE && b < U64_RANGE
    ensures FitsWidths([a, b] + vs, [8, 8] + ws)
  {
    RangeValues();
    hide Range;
  }

  lemma PairFrom(l: BookLevel, vs: seq<nat>)
    requires IsI64(l.price) && |vs| % 2 == 0
    ensures LevelsFrom([ToBits(l.price), l.quantity] + vs) == [l] + LevelsFrom(vs)
  {
    TwosComplement(l.price, 0);
    hide ToBits, FromBits;
    assert ([ToBits(l.price), l.quantity] + vs)[2..] == vs;
  }

  lemma {:induction false} LevelsFit(ls: seq<BookLevel>)
    requires LevelsInRange(ls)
    ensures FitsWidths(LevelValues(ls), Eights(2 * |ls|)) && LevelsFrom(LevelValues(ls)) == ls
  {
    if ls != [] {
      assert Eights(2 * |ls|) == [8, 8] + Eights(2 * |ls[1..]|);
      LevelsFit(ls[1..]);
      TwosComplement(ls[0].price, 0);
      hide FitsWidths, LevelsFrom, ToBits, Eights;
      PairFits(ToBits(ls[0].price), ls[0].quantity, LevelValues(ls[1..]), Eights(2 * |ls[1..]|));
      PairFrom(ls[0], LevelValues(ls[1..]));
      assert ls == [ls[0]] + ls[1..];
    }
  }

  lemma {:induction false} LevelsAppend(a: seq<BookLevel>, b: seq<BookLevel>)
    ensures LevelsInRange(a + b) <==> LevelsInRange(a) && LevelsInRange(b)
  {
    if a == [] {
      assert a + b == b;
    } else {
      assert (a + b)[1..] == a[1..] + b;
      LevelsAppend(a[1..], b);
    }
  }

  lemma TopInRange(ls: seq<BookLevel>)
    requires LevelsInRange(ls)
    ensures LevelsInRange(Top(ls)) && |Top(ls)| <= MAX_DEPTH
  {
    if |ls| > MAX_DEPTH {
      assert ls == ls[..MAX_DEPTH] + ls[MAX_DEPTH..];
      LevelsAppend(ls[..MAX_DEPTH], ls[MAX_DEPTH..]);
    }
  }

  lemma {:induction false} EightsTotal(n: nat)
    ensures Total(Eights(n)) == 8 * n
  {
    if n > 0 {
      EightsTotal(n - 1);
    }
  }

  lemma CountsFit(s: nat, nb: nat, na: nat)
    requires s < U64_RANGE && nb <= MAX_DEPTH && na <= MAX_DEPTH
    ensures FitsWidths([s, nb, na], COUNT_WIDTHS) && Total(COUNT_WIDTHS) == 10
  {
    RangeValues();
    assert COUNT_WIDTHS[1..] == [1, 1];
    assert [1, 1][1..] == [1];
  }

  lemma LevelsRoundTrip(ls: seq<BookLevel>)
    requires LevelsInRange(ls)
    ensures var tail := Encode(Zip(LevelValues(ls), Eights(2 * |ls|)));
            && Decode(tail, Eights(2 * |ls|)) == Some(Parsed(LevelValues(ls), []))
            && |tail| == 16 * |ls|
    ensures LevelsFrom(LevelValues(ls)) == ls
  {
    LevelsFit(ls);
    EightsTotal(2 * |ls|);
    hide Decode, Encode, Zip, FitsWidths, Eights, LevelsInRange;
    ZipRoundTrip(LevelValues(ls), Eights(2 * |ls|), []);
    var tail := Encode(Zip(LevelValues(ls), Eights(2 * |ls|)));
    assert tail + [] == tail;
  }

  lemma BookParts(s: nat, b: seq<BookLevel>, a: seq<BookLevel>)
    requires s < U64_RANGE && |b| <= MAX_DEPTH && |a| <= MAX_DEPTH && LevelsInRange(b + a)
    ensures var data := Encode(Zip([s, |b|, |a|], COUNT_WIDTHS)) +
                        Encode(Zip(LevelValues(b + a), Eights(2 * |b + a|)));
            BookFrom(data) == Some(BookUpdateMsg(s, b, a)) && |data| <= 330
  {
    hide Decode, Encode, Zip, LevelValues, LevelsFrom, FitsWidths, Eights, LevelsInRange;
    CountsFit(s, |b|, |a|);
    LevelsRoundTrip(b + a);
    var tail := Encode(Zip(LevelValues(b + a), Eights(2 * |b + a|)));
    ZipRoundTrip([s, |b|, |a|], COUNT_WIDTHS, tail);
    assert |b + a| == |b| + |a|;
    assert (b + a)[..|b|] == b && (b + a)[|b|..] == a;
  }

  lemma BookRoundTrip(m: Message)
    requires MessageInRange(m) && m.BookUpdateMsg?
    ensures DecodeMessage(13, Payload(m)) == Some(Clamp(m))
    ensures |Payload(m)| <= 330
  {
    hide BookFrom, Encode, Zip, LevelValues, Eights, Top, LevelsInRange;
    TopInRange(m.bids);
    TopInRange(m.asks);
    LevelsAppend(Top(m.bids), Top(m.asks));
    BookParts(m.seqno, Top(m.bids), Top(m.asks));
  }

  /** Every message survives its payload, book updates up to ten levels a side. */
  lemma MessageRoundTrip(m: Message)
    requires MessageInRange(m)
    ensures DecodeMessage(CodeOf(m), Payload(m)) == Some(Clamp(m)) && |Payload(m)| <= 330
  {
    if m.BookUpdateMsg? {
      BookRoundTrip(m);
    } else {
      FixedRoundTrip(m);
      FixedTotals(CodeOf(m));
    }
  }

  // ----- one payload per message --------------------------------------------

  lemma {:induction false} LevelsBack(v: seq<nat>, n: nat)
    requires |v| == 2 * n && FitsWidths(v, Eights(2 * n))
    ensures LevelValues(LevelsFrom(v)) == v && LevelsInRange(LevelsFrom(v))
    decreases n
  {
    if n > 0 {
      assert Eights(2 * n) == [8, 8] + Eights(2 * n - 2);
      PairFitted(v, Eights(2 * n - 2));
      LevelsBack(v[2..], n - 1);
      BitsBack(v[0]);
      hide FitsWidths, Eights, ToBits, FromBits;
      assert v == [v[0], v[1]] + v[2..];
    }
  }

  lemma PairFitted(v: seq<nat>, ws: seq<nat>)
    requires |v| == 2 + |ws| && FitsWidths(v, [8, 8] + ws)
    ensures v[0] < U64_RANGE && v[1] < U64_RANGE && FitsWidths(v[2..], ws)
  {
    RangeValues();
    assert ([8, 8] + ws)[1..] == [8] + ws && ([8] + ws)[1..] == ws && v[1..][1..] == v[2..];
    hide Range;
  }

  lemma BitsBack(x: nat)
    requires x < U64_RANGE
    ensures ToBits(FromBits(x)) == x && IsI64(FromBits(x))
  {
    TwosComplement(0, x);
  }

  /** The message decoded from field values has exactly those values. */
  lemma FixedBack(code: nat, v: seq<nat>)
    requires |v| == |FixedWidths(code)| && FitsWidths(v, FixedWidths(code)) && FixedFrom(code, v).Some?
    ensures var m := FixedFrom(code, v).value;
            !m.BookUpdateMsg? && CodeOf(m) == code && FixedValues(m) == v && MessageInRange(m)
  {
    RangeValues();
    hide Range;
    if |v| > 1 && FixedWidths(code)[1] == 8 {
      BitsBack(v[1]);
    }
    hide ToBits, FromBits;
  }

  lemma FixedCanonical(code: nat, data: seq<byte>)
    requires code != 13 && DecodeMessage(code, data).Some?
    ensures var m := DecodeMessage(code, data).value; CodeOf(m) == code && Payload(m) == data && MessageInRange(m)
  {
    var ws := FixedWidths(code);
    var p := Decode(data, ws).value;
    DecodeFits(data, ws);
    EncodeDecode(data, ws);
    hide Decode, FixedWidths, FitsWidths, FixedFrom, FixedValues, Encode, Zip;
    FixedBack(code, p.values);
    assert Encode(Zip(p.values, ws)) + [] == Encode(Zip(p.values, ws));
  }

  /** The levels behind the counts of an accepted book update. */
  lemma LevelsCanonical(seqno: nat, nb: nat, na: nat, data: seq<byte>)
    requires nb <= MAX_DEPTH && na <= MAX_DEPTH && BookOf(seqno, nb, na, data).Some?
    ensures var m := BookOf(seqno, nb, na, data).value;
            && m.BookUpdateMsg? && m.seqno == seqno && |m.bids| == nb && |m.asks| == na
            && LevelsInRange(m.bids) && LevelsInRange(m.asks)
            && data == Encode(Zip(LevelValues(m.bids + m.asks), Eights(2 * (nb + na))))
  {
    hide Decode, Encode, Zip, FitsWidths, Eights, LevelValues, LevelsFrom, LevelsInRange;
    var ws := Eights(2 * (nb + na));
    var v := Decode(data, ws).value.values;
    DecodeFits(data, ws);
    EncodeDecode(data, ws);
    LevelsBack(v, nb + na);
    var ls := LevelsFrom(v);
    LevelsAppend(ls[..nb], ls[nb..]);
    assert ls[..nb] + ls[nb..] == ls;
    assert Encode(Zip(v, ws)) + [] == Encode(Zip(v, ws));
  }

  lemma BookCanonical(data: seq<byte>)
    requires BookFrom(data).Some?
    ensures var m := BookFrom(data).value; m.BookUpdateMsg? && Payload(m) == data && MessageInRange(m)
  {
    hide BookOf, Decode, Encode, Zip, FitsWidths, Eights, LevelValues, LevelsInRange;
    var h := Decode(data, COUNT_WIDTHS).value;
    DecodeFits(data, COUNT_WIDTHS);
    EncodeDecode(data, COUNT_WIDTHS);
    CountsFitted(h.values);
    assert h.values == [h.values[0], h.values[1], h.values[2]];
    LevelsCanonical(h.values[0], h.values[1], h.values[2], h.rest);
  }

  lemma CountsFitted(v: seq<nat>)
    requires |v| == 3 && FitsWidths(v, COUNT_WIDTHS)
    ensures v[0] < U64_RANGE
  {
    RangeValues();
  }

  /** Whatever decodes is the payload of the message it decodes to, under that
      message's code: a code and a message have exactly one form on the wire. */
  lemma MessageCanonical(code: nat, data: seq<byte>)
    requires DecodeMessage(code, data).Some?
    ensures var m := DecodeMessage(code, data).value; CodeOf(m) == code && Payload(m) == data && MessageInRange(m)
  {
    hide BookFrom, Payload, MessageInRange, Decode, FixedFrom;
    if code == 13 {
      BookCanonical(data);
    } else {
      FixedCanonical(code, data);
    }
  }

  lemma FixedTotals(code: nat)
    ensures Total(FixedWidths(code)) <= 24
  {
    var w := FixedWidths(code);
    if |w| == 5 {
      assert w[1..] == [8, 4, 1, 1];
      assert [8, 4, 1, 1][1..] == [4, 1, 1];
      assert [4, 1, 1][1..] == [1, 1];
      assert [1, 1][1..] == [1];
    } else if |w| == 4 {
      assert w[1..] == [8, 4, 4];
      assert [8, 4, 4][1..] == [4, 4];
      assert [4, 4][1..] == [4];
    } else if |w| == 3 {
      assert w[1..] == [8, 4];
      assert [8, 4][1..] == [4];
    } else if |w| == 2 {
      assert w[1..] == [8] || w[1..] == [2];
    }
  }
}
