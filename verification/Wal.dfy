/** The write-ahead log (include/ome/wal.hpp): 16-byte header of length,
    checksum and sequence number, then a 31-byte command payload. */
module WriteAheadLog {
  import opened Orders
  import opened Crc
  import opened Codec
  import opened ThreadSpec

  const HEADER := 16
  const PAYLOAD := 31
  const RECORD := 47
  const MAX_PAYLOAD := 65536

  // ----- command payload ----------------------------------------------------

  const COMMAND_WIDTHS: seq<nat> := [1, 8, 8, 8, 4, 1, 1]
  const HEADER_WIDTHS: seq<nat> := [4, 4, 8]

  function TypeCode(t: CommandType): nat {
    match t
    case SessionOpened => 0
    case NewOrder => 1
    case CancelOrder => 2
    case ModifyOrder => 3
    case Subscribe => 4
    case CancelAll => 5
  }

  function TypeOf(code: nat): Option<CommandType> {
    if code == 0 then Some(SessionOpened)
    else if code == 1 then Some(NewOrder)
    else if code == 2 then Some(CancelOrder)
    else if code == 3 then Some(ModifyOrder)
    else if code == 4 then Some(Subscribe)
    else if code == 5 then Some(CancelAll)
    else None
  }

  function CommandValues(c: Command): seq<nat> {
    [TypeCode(c.what), c.session, c.clientId, ToBits(c.price), c.quantity,
     if c.side.Bid? then 0 else 1, if c.market then 0 else 1]
  }

  function EncodeCommand(c: Command): seq<byte> {
    Encode(Zip(CommandValues(c), COMMAND_WIDTHS))
  }

  function FromValues(v: seq<nat>): Option<Command>
    requires |v| == 7
  {
    var t := TypeOf(v[0]);
    if t.None? || v[5] > 1 || v[6] > 1 then None
    else Some(Command(t.value, v[1], v[2], FromBits(v[3]), v[4], if v[5] == 0 then Bid else Ask, v[6] == 0))
  }

  /** Accepts a buffer of exactly the right length with known enumerators. */
  function DecodeCommand(data: seq<byte>): Option<Command> {
    var p := Decode(data, COMMAND_WIDTHS);
    if p.None? || p.value.rest != [] then None else FromValues(p.value.values)
  }

  /** The field widths the C++ types give a command. */
  predicate InRange(c: Command) {
    c.session < U64_RANGE && c.clientId < U64_RANGE && IsI64(c.price) && c.quantity < 0x1_0000_0000
  }

  ghost predicate FitsWidths(vs: seq<nat>, ws: seq<nat>)
    requires |vs| == |ws|
  {
    forall i :: 0 <= i < |vs| ==> vs[i] < Range(ws[i])
  }

  lemma {:induction false} ZipFits(vs: seq<nat>, ws: seq<nat>)
    requires |vs| == |ws| && FitsWidths(vs, ws)
    ensures Fits(Zip(vs, ws)) && Widths(Zip(vs, ws)) == ws && Values(Zip(vs, ws)) == vs
  {
    if vs != [] {
      ZipFits(vs[1..], ws[1..]);
      var z := Zip(vs, ws);
      assert z[1..] == Zip(vs[1..], ws[1..]);
      assert vs == [vs[0]] + vs[1..] && ws == [ws[0]] + ws[1..];
    }
  }

  /** Values that fit their widths survive encoding, whatever follows them. */
  lemma ZipRoundTrip(vs: seq<nat>, ws: seq<nat>, rest: seq<byte>)
    requires |vs| == |ws| && FitsWidths(vs, ws)
    ensures Decode(Encode(Zip(vs, ws)) + rest, ws) == Some(Parsed(vs, rest))
    ensures |Encode(Zip(vs, ws))| == Total(ws)
  {
    ZipFits(vs, ws);
    DecodeEncode(Zip(vs, ws), rest);
    EncodeLength(Zip(vs, ws));
  }

  lemma WidthTotals()
    ensures Total(COMMAND_WIDTHS) == PAYLOAD && Total(HEADER_WIDTHS) == HEADER
  {
    assert COMMAND_WIDTHS[1..] == [8, 8, 8, 4, 1, 1];
    assert COMMAND_WIDTHS[1..][1..] == [8, 8, 4, 1, 1];
    assert COMMAND_WIDTHS[1..][1..][1..] == [8, 4, 1, 1];
    assert Total([8, 4, 1, 1]) == 14 by {
      assert [8, 4, 1, 1][1..] == [4, 1, 1];
      assert [4, 1, 1][1..] == [1, 1];
      assert [1, 1][1..] == [1];
    }
    assert HEADER_WIDTHS[1..] == [4, 8];
    assert [4, 8][1..] == [8];
  }

  lemma CommandFits(c: Command)
    requires InRange(c)
    ensures FitsWidths(CommandValues(c), COMMAND_WIDTHS)
  {
    RangeValues();
    hide Range;
    TwosComplement(c.price, 0);
  }

  lemma CommandFromValues(c: Command)
    requires InRange(c)
    ensures FromValues(CommandValues(c)) == Some(c)
  {
    TwosComplement(c.price, 0);
  }

  /** Every command survives its encoding. */
  lemma CommandRoundTrip(c: Command)
    requires InRange(c)
    ensures DecodeCommand(EncodeCommand(c)) == Some(c) && |EncodeCommand(c)| == PAYLOAD
  {
    hide Decode, Encode, Zip, FromValues, FitsWidths;
    CommandFits(c);
    ZipRoundTrip(CommandValues(c), COMMAND_WIDTHS, []);
    WidthTotals();
    assert EncodeCommand(c) + [] == EncodeCommand(c);
    CommandFromValues(c);
  }

  lemma {:induction false} DecodeFits(data: seq<byte>, ws: seq<nat>)
    requires Total(ws) <= |data|
    ensures FitsWidths(Decode(data, ws).value.values, ws)
    decreases ws
  {
    if ws != [] {
      DecodeFits(data[ws[0]..], ws[1..]);
      PutGet(data[..ws[0]]);
    }
  }

  lemma ValuesOf(v: seq<nat>)
    requires |v| == 7 && FitsWidths(v, COMMAND_WIDTHS) && FromValues(v).Some?
    ensures CommandValues(FromValues(v).value) == v && InRange(FromValues(v).value)
  {
    RangeValues();
    hide Range;
    TwosComplement(0, v[3]);
  }

  /** There is one encoding per command: whatever decodes is that encoding. */
  lemma CommandCanonical(data: seq<byte>)
    requires DecodeCommand(data).Some?
    ensures EncodeCommand(DecodeCommand(data).value) == data && InRange(DecodeCommand(data).value)
  {
    hide FromValues, CommandValues, FitsWidths;
    var p := Decode(data, COMMAND_WIDTHS).value;
    DecodeFits(data, COMMAND_WIDTHS);
    ValuesOf(p.values);
    EncodeDecode(data, COMMAND_WIDTHS);
    assert Encode(Zip(p.values, COMMAND_WIDTHS)) + [] == Encode(Zip(p.values, COMMAND_WIDTHS));
  }

  // ----- records ------------------------------------------------------------

  function Header(length: nat, crc: nat, seqno: nat): seq<byte> {
    Encode(Zip([length, crc, seqno], HEADER_WIDTHS))
  }

  function Record(seqno: nat, c: Command): seq<byte> {
    var payload := EncodeCommand(c);
    Header(|payload|, Crc32(payload), seqno) + payload
  }

  /** The log of consecutive commands numbered from `first`. */
  function Log(first: nat, cs: seq<Command>): seq<byte>
    decreases cs
  {
    if cs == [] then [] else Record(first, cs[0]) + Log(first + 1, cs[1..])
  }

  datatype Entry = Entry(command: Command, seqno: nat, rest: seq<byte>)

  /** The record at the front of a buffer, if it is intact. */
  function NextRecord(buf: seq<byte>): (r: Option<Entry>)
    ensures r.Some? ==> |r.value.rest| < |buf|
  {
    var h := Decode(buf, HEADER_WIDTHS);
    if h.None? then None
    else
      var len, crc, seqno := h.value.values[0], h.value.values[1], h.value.values[2];
      if len > MAX_PAYLOAD || |h.value.rest| < len then None
      else if Crc32(h.value.rest[..len]) != crc then None
      else
        var c := DecodeCommand(h.value.rest[..len]);
        WidthTotals();
        if c.None? then None else Some(Entry(c.value, seqno, h.value.rest[len..]))
  }

  datatype ReadResult = ReadResult(commands: seq<Command>, firstSeq: nat, lastSeq: nat, truncated: nat, gap: bool)

  const NothingRead := ReadResult([], 0, 0, 0, false)

  function Accept(r: ReadResult, e: Entry): ReadResult {
    ReadResult(r.commands + [e.command], if r.commands == [] then e.seqno else r.firstSeq, e.seqno, 0, false)
  }

  /** Reads records until one is not intact or breaks the numbering. */
  function Scan(buf: seq<byte>, r: ReadResult): ReadResult
    decreases |buf|
  {
    var e := NextRecord(buf);
    if e.None? then r.(truncated := |buf|)
    else if r.lastSeq != 0 && e.value.seqno != r.lastSeq + 1 then r.(truncated := |buf|, gap := true)
    else Scan(e.value.rest, Accept(r, e.value))
  }

  function ReadWal(buf: seq<byte>): ReadResult {
    Scan(buf, NothingRead)
  }

  lemma CrcFits(data: seq<byte>)
    ensures Crc32(data) < 0x1_0000_0000
  {
    CrcBound(WORD - 1, data);
  }

  lemma HeaderFits(length: nat, crc: nat, seqno: nat)
    requires length < 0x1_0000_0000 && crc < 0x1_0000_0000 && seqno < U64_RANGE
    ensures FitsWidths([length, crc, seqno], HEADER_WIDTHS)
  {
    RangeValues();
  }

  /** A header reads back as written. */
  lemma HeaderRoundTrip(length: nat, crc: nat, seqno: nat, rest: seq<byte>)
    requires length < 0x1_0000_0000 && crc < 0x1_0000_0000 && seqno < U64_RANGE
    ensures Decode(Header(length, crc, seqno) + rest, HEADER_WIDTHS) == Some(Parsed([length, crc, seqno], rest))
    ensures |Header(length, crc, seqno)| == HEADER
  {
    HeaderFits(length, crc, seqno);
    ZipRoundTrip([length, crc, seqno], HEADER_WIDTHS, rest);
    WidthTotals();
  }

  /** An intact record reads back, and the reader moves past it. */
  lemma RecordRoundTrip(seqno: nat, c: Command, rest: seq<byte>)
    requires InRange(c) && seqno < U64_RANGE
    ensures NextRecord(Record(seqno, c) + rest) == Some(Entry(c, seqno, rest))
    ensures |Record(seqno, c)| == RECORD
  {
    hide Decode, DecodeCommand, Crc32, Header, EncodeCommand;
    var payload := EncodeCommand(c);
    CommandRoundTrip(c);
    CrcFits(payload);
    HeaderRoundTrip(|payload|, Crc32(payload), seqno, payload + rest);
    var h := Header(|payload|, Crc32(payload), seqno);
    assert Record(seqno, c) + rest == h + (payload + rest);
    assert (payload + rest)[..PAYLOAD] == payload && (payload + rest)[PAYLOAD..] == rest;
  }

  /** A record cut short anywhere is not accepted. */
  lemma TornRecord(seqno: nat, c: Command, k: nat)
    requires InRange(c) && seqno < U64_RANGE && k < RECORD
    ensures |Record(seqno, c)| == RECORD && NextRecord(Record(seqno, c)[..k]).None?
  {
    hide DecodeCommand, Crc32, Header, EncodeCommand;
    RecordRoundTrip(seqno, c, []);
    WidthTotals();
    if k >= HEADER {
      var payload := EncodeCommand(c);
      CommandRoundTrip(c);
      CrcFits(payload);
      HeaderRoundTrip(|payload|, Crc32(payload), seqno, payload[..k - HEADER]);
      assert Record(seqno, c)[..k] == Header(|payload|, Crc32(payload), seqno) + payload[..k - HEADER];
    }
  }

  // ----- reading a whole log ------------------------------------------------

  ghost predicate AllInRange(cs: seq<Command>) {
    cs == [] || (InRange(cs[0]) && AllInRange(cs[1..]))
  }

  lemma {:induction false} InRangeSplit(a: seq<Command>, b: seq<Command>)
    ensures AllInRange(a + b) <==> AllInRange(a) && AllInRange(b)
  {
    if a == [] {
      assert a + b == b;
    } else {
      assert (a + b)[1..] == a[1..] + b;
      InRangeSplit(a[1..], b);
    }
  }

  lemma {:induction false} LogLength(first: nat, cs: seq<Command>)
    requires AllInRange(cs) && first + |cs| <= U64_RANGE
    ensures |Log(first, cs)| == RECORD * |cs|
    decreases cs
  {
    hide Record, NextRecord;
    if cs != [] {
      RecordRoundTrip(first, cs[0], []);
      LogLength(first + 1, cs[1..]);
    }
  }

  lemma {:induction false} LogAppend(first: nat, a: seq<Command>, b: seq<Command>)
    ensures Log(first, a + b) == Log(first, a) + Log(first + |a|, b)
    decreases a
  {
    hide Record;
    if a == [] {
      assert a + b == b;
    } else {
      assert (a + b)[1..] == a[1..] + b;
      LogAppend(first + 1, a[1..], b);
    }
  }

  /** What a reader has gathered after n records numbered from `first`. */
  function After(r: ReadResult, first: nat, cs: seq<Command>): ReadResult {
    if cs == [] then r
    else ReadResult(r.commands + cs, if r.commands == [] then first else r.firstSeq, first + |cs| - 1, 0, false)
  }

  /** A reader that expects record number `first` next. */
  ghost predicate Expects(r: ReadResult, first: nat) {
    && first > 0 && r.truncated == 0 && !r.gap
    && (if r.commands == [] then r.lastSeq == 0 else r.lastSeq + 1 == first)
  }

  lemma AcceptAfter(r: ReadResult, first: nat, cs: seq<Command>, rest: seq<byte>)
    requires Expects(r, first) && cs != []
    ensures var r' := Accept(r, Entry(cs[0], first, rest));
            && Expects(r', first + 1)
            && After(r', first + 1, cs[1..]) == After(r, first, cs)
  {
    assert r.commands + [cs[0]] + cs[1..] == r.commands + cs;
  }

  /** The reader consumes every complete record and stops at what follows. */
  lemma {:induction false} ScanThrough(first: nat, cs: seq<Command>, tail: seq<byte>, r: ReadResult)
    requires AllInRange(cs) && first + |cs| <= U64_RANGE && Expects(r, first)
    ensures Scan(Log(first, cs) + tail, r) == Scan(tail, After(r, first, cs))
    ensures Expects(After(r, first, cs), first + |cs|)
    decreases cs
  {
    hide Record, NextRecord;
    if cs == [] {
      assert Log(first, cs) + tail == tail;
    } else {
      var rest := Log(first + 1, cs[1..]) + tail;
      assert Log(first, cs) + tail == Record(first, cs[0]) + rest;
      RecordRoundTrip(first, cs[0], rest);
      AcceptAfter(r, first, cs, rest);
      ScanThrough(first + 1, cs[1..], tail, Accept(r, Entry(cs[0], first, rest)));
    }
  }

  lemma ShortTail(tail: seq<byte>, r: ReadResult)
    requires |tail| < HEADER
    ensures NextRecord(tail).None? && Scan(tail, r) == r.(truncated := |tail|)
  {
    WidthTotals();
  }

  /** For every command list, first number and byte cut, the reader returns
      exactly the complete records, their numbering and the torn byte count. */
  lemma ReadCutLog(first: nat, cs: seq<Command>, k: nat)
    requires AllInRange(cs) && first > 0 && first + |cs| <= U64_RANGE && k <= RECORD * |cs|
    ensures |Log(first, cs)| == RECORD * |cs|
    ensures var n := k / RECORD;
            ReadWal(Log(first, cs)[..k]) ==
            ReadResult(cs[..n], if n == 0 then 0 else first, if n == 0 then 0 else first + n - 1, k - RECORD * n, false)
  {
    hide Scan, NextRecord, Record;
    var n := k / RECORD;
    LogLength(first, cs);
    var a, b := cs[..n], cs[n..];
    assert cs == a + b;
    InRangeSplit(a, b);
    LogAppend(first, a, b);
    LogLength(first, a);
    var t := k - RECORD * n;
    var tail := Log(first + n, b)[..t];
    assert Log(first, cs)[..k] == Log(first, a) + tail;
    ScanThrough(first, a, tail, NothingRead);
    TornTail(first + n, b, t, After(NothingRead, first, a));
    assert [] + a == a;
  }

  /** Fewer bytes than a record, cut from the front of a log, are all torn. */
  lemma TornTail(first: nat, cs: seq<Command>, t: nat, r: ReadResult)
    requires AllInRange(cs) && first + |cs| <= U64_RANGE && t < RECORD && t <= |Log(first, cs)|
    ensures Scan(Log(first, cs)[..t], r) == r.(truncated := t)
  {
    hide Record, NextRecord;
    if cs == [] {
      ShortTail([], r);
    } else {
      TornRecord(first, cs[0], t);
      assert Log(first, cs)[..t] == Record(first, cs[0])[..t];
    }
  }

  /** A payload altered within any 32 consecutive bits is never accepted: the
      reader stops there and returns exactly the records before it. */
  lemma CorruptPayload(first: nat, cs: seq<Command>, c: Command, bad: seq<byte>, at: nat, n: nat, tail: seq<byte>)
    requires AllInRange(cs) && InRange(c) && first > 0 && first + |cs| < U64_RANGE
    requires |bad| == |EncodeCommand(c)| && bad != EncodeCommand(c) && n <= 32 && at + n <= 8 * |bad|
    requires MessageBits(bad)[..at] == MessageBits(EncodeCommand(c))[..at]
    requires MessageBits(bad)[at + n..] == MessageBits(EncodeCommand(c))[at + n..]
    ensures var good := EncodeCommand(c);
            var buf := Header(|good|, Crc32(good), first + |cs|) + bad + tail;
            && ReadWal(Log(first, cs) + buf).commands == cs
            && ReadWal(Log(first, cs) + buf).truncated == |buf|
  {
    hide Log, Header, Crc32, MessageBits, ReadWal, NextRecord, EncodeCommand, InRange, AllInRange;
    var good := EncodeCommand(c);
    CommandRoundTrip(c);
    assert Crc32(bad) != Crc32(good) by {
      DetectsBurst(bad, good, at, n);
    }
    CrcFits(good);
    RejectsChecksum(|good|, Crc32(good), first + |cs|, bad, tail);
    StopsAt(first, cs, Header(|good|, Crc32(good), first + |cs|) + bad + tail);
  }

  /** Whatever follows a log but is not a record ends the read there. */
  lemma StopsAt(first: nat, cs: seq<Command>, buf: seq<byte>)
    requires AllInRange(cs) && first > 0 && first + |cs| <= U64_RANGE && NextRecord(buf).None?
    ensures ReadWal(Log(first, cs) + buf).commands == cs && ReadWal(Log(first, cs) + buf).truncated == |buf|
  {
    hide Log, NextRecord;
    ScanThrough(first, cs, buf, NothingRead);
    assert [] + cs == cs;
  }

  lemma RejectsChecksum(len: nat, crc: nat, seqno: nat, bad: seq<byte>, tail: seq<byte>)
    requires len == |bad| == PAYLOAD && crc < 0x1_0000_0000 && seqno < U64_RANGE && Crc32(bad) != crc
    ensures NextRecord(Header(len, crc, seqno) + bad + tail).None?
  {
    hide Decode, DecodeCommand, Crc32, Header;
    HeaderRoundTrip(len, crc, seqno, bad + tail);
    assert Header(len, crc, seqno) + bad + tail == Header(len, crc, seqno) + (bad + tail);
    assert (bad + tail)[..len] == bad;
  }

  // ----- the reader and the writer ------------------------------------------

  method DecodeCommandBytes(data: seq<byte>) returns (c: Option<Command>)
    ensures c == DecodeCommand(data)
  {
    var r := new Reader(data);
    var v := r.ReadFields(COMMAND_WIDTHS);
    assert data[0..] == data;
    if !r.ok || r.pos != |data| {
      return None;
    }
    c := FromValues(v);
  }

  method ParseRecord(buf: seq<byte>) returns (e: Option<Entry>)
    ensures e == NextRecord(buf)
  {
    WidthTotals();
    var r := new Reader(buf);
    var h := r.ReadFields(HEADER_WIDTHS);
    assert buf[0..] == buf;
    if !r.ok {
      return None;
    }
    var len, crc, seqno := h[0], h[1], h[2];
    var rest := buf[r.pos..];
    if len > MAX_PAYLOAD || |rest| < len {
      return None;
    }
    var sum := ComputeCrc32(rest[..len], 0);
    if sum != crc {
      return None;
    }
    var c := DecodeCommandBytes(rest[..len]);
    e := if c.None? then None else Some(Entry(c.value, seqno, rest[len..]));
  }

  method ReadLogBytes(buf: seq<byte>) returns (r: ReadResult)
    ensures r == ReadWal(buf)
  {
    hide NextRecord;
    r := NothingRead;
    var pos := 0;
    assert buf[0..] == buf;
    while true
      invariant pos <= |buf|
      invariant Scan(buf[pos..], r) == ReadWal(buf)
      decreases |buf| - pos
    {
      var e := ParseRecord(buf[pos..]);
      if e.None? {
        return r.(truncated := |buf| - pos);
      }
      if r.lastSeq != 0 && e.value.seqno != r.lastSeq + 1 {
        return r.(truncated := |buf| - pos, gap := true);
      }
      RestIsSuffix(buf[pos..]);
      r := Accept(r, e.value);
      var used := |buf| - pos - |e.value.rest|;
      assert buf[pos..][used..] == buf[pos + used..];
      pos := pos + used;
    }
  }

  lemma RestIsSuffix(buf: seq<byte>)
    requires NextRecord(buf).Some?
    ensures var rest := NextRecord(buf).value.rest; |rest| < |buf| && rest == buf[|buf| - |rest|..]
  {
    WidthTotals();
  }

  /** Re-encodes the records numbered above keepAfter, keeping their numbers. */
  method Reencode(cs: seq<Command>, first: nat, keepAfter: nat) returns (out: seq<byte>)
    ensures var d := Dropped(first, |cs|, keepAfter); out == Log(first + d, cs[d..])
  {
    hide Record;
    out := [];
    var i := 0;
    var d := Dropped(first, |cs|, keepAfter);
    while i < |cs|
      invariant i <= |cs|
      invariant i <= d ==> out == []
      invariant d <= i ==> out + Log(first + i, cs[i..]) == Log(first + d, cs[d..])
    {
      assert cs[i..][1..] == cs[i+1..];
      if first + i > keepAfter {
        assert out + (Record(first + i, cs[i]) + Log(first + i + 1, cs[i+1..]))
            == out + Record(first + i, cs[i]) + Log(first + i + 1, cs[i+1..]);
        out := out + Record(first + i, cs[i]);
      }
      i := i + 1;
    }
    assert out + [] == out;
  }

  /** How many of n records numbered from `first` a cut removes. */
  function Dropped(first: nat, n: nat, keepAfter: nat): (d: nat)
    ensures d <= n
  {
    if keepAfter < first then 0 else if keepAfter - first + 1 <= n then keepAfter - first + 1 else n
  }

  /** The log file and its sequence counter.  `all` is every command ever
      appended; the file holds those numbered above `cut`, and then whatever an
      interrupted append left. */
  class Wal {
    var file: seq<byte>
    var seqno: nat
    ghost var all: seq<Command>
    ghost var cut: nat
    ghost var tail: seq<byte>

    ghost predicate Valid()
      reads this
    {
      && cut <= |all| == seqno < U64_RANGE && AllInRange(all)
      && file == Log(cut + 1, all[cut..]) + tail && NextRecord(tail).None?
    }

    constructor ()
      ensures Valid() && all == [] && cut == 0 && file == [] && tail == []
    {
      file, seqno, all, cut, tail := [], 0, [], 0, [];
      new;
      hide NextRecord;
      ShortTail([], NothingRead);
    }

    /** Writes at the end of the file, wherever that is. */
    method Append(c: Command)
      requires Valid() && InRange(c) && seqno + 1 < U64_RANGE
      modifies this
      ensures all == old(all) + [c] && cut == old(cut) && tail == old(tail) && seqno == old(seqno) + 1
      ensures file == old(file) + Record(seqno, c)
      ensures tail == [] ==> Valid()
    {
      hide Record, Log, AllInRange, NextRecord;
      AppendedLog(all, cut, c);
      seqno := seqno + 1;
      file := file + Record(seqno, c);
      all := all + [c];
      assert tail == [] ==> old(file) == Log(cut + 1, old(all)[cut..]);
      assert tail == [] ==> file + tail == file;
    }

    /** An append the process did not survive: k bytes of the record are there. */
    method AppendCut(c: Command, k: nat)
      requires Valid() && InRange(c) && seqno + 1 < U64_RANGE && k < RECORD && tail == []
      modifies this
      ensures Valid() && all == old(all) && cut == old(cut) && seqno == old(seqno)
      ensures |Record(seqno + 1, c)| == RECORD && tail == Record(seqno + 1, c)[..k] && file == old(file) + tail
    {
      hide Record, Log, AllInRange, NextRecord;
      TornRecord(seqno + 1, c, k);
      tail := Record(seqno + 1, c)[..k];
      file := file + Record(seqno + 1, c)[..k];
      assert Log(cut + 1, all[cut..]) + [] == Log(cut + 1, all[cut..]);
    }

    /** Drops records at or below keepAfter and any torn tail; the rest keep
        numbers and bytes. */
    method TruncateBefore(keepAfter: nat)
      requires Valid()
      modifies this
      ensures Valid() && tail == []
      ensures all == old(all) && seqno == old(seqno)
      ensures cut == Max(old(cut), Min(keepAfter, |all|))
    {
      hide Log, ReadWal, AllInRange, NextRecord;
      ReadKept(all, cut, tail);
      var rd := ReadLogBytes(file);
      ghost var d := Dropped(rd.firstSeq, |rd.commands|, keepAfter);
      TruncatedLog(all, cut, rd.firstSeq, keepAfter);
      ShortTail([], NothingRead);
      file := Reencode(rd.commands, rd.firstSeq, keepAfter);
      cut := cut + d;
      tail := [];
      assert file + [] == file;
    }

    /** The file reads back as the commands above the cut, in order, with their
        original numbers, the torn bytes counted and no gap. */
    method ReadBack() returns (r: ReadResult)
      requires Valid()
      ensures r.commands == all[cut..] && r.truncated == |tail| && !r.gap
      ensures cut < |all| ==> r.firstSeq == cut + 1 && r.lastSeq == |all|
    {
      hide Log, ReadWal, AllInRange, NextRecord;
      ReadKept(all, cut, tail);
      r := ReadLogBytes(file);
    }
  }

  lemma AppendedLog(all: seq<Command>, cut: nat, c: Command)
    requires cut <= |all| && AllInRange(all) && InRange(c)
    ensures AllInRange(all + [c])
    ensures Log(cut + 1, (all + [c])[cut..]) == Log(cut + 1, all[cut..]) + Record(|all| + 1, c)
  {
    hide Record, Log;
    LogAppend(cut + 1, all[cut..], [c]);
    LogOne(|all| + 1, c);
    InRangeSplit(all, [c]);
    assert (all + [c])[cut..] == all[cut..] + [c];
  }

  /** A log and bytes that are no record read back as that log. */
  lemma ReadThrough(first: nat, cs: seq<Command>, tail: seq<byte>)
    requires AllInRange(cs) && first > 0 && first + |cs| <= U64_RANGE && NextRecord(tail).None?
    ensures ReadWal(Log(first, cs) + tail) ==
            ReadResult(cs, if cs == [] then 0 else first, if cs == [] then 0 else first + |cs| - 1, |tail|, false)
  {
    hide Log, NextRecord;
    ScanThrough(first, cs, tail, NothingRead);
    assert [] + cs == cs;
  }

  /** What a valid file reads back as. */
  lemma ReadKept(all: seq<Command>, cut: nat, tail: seq<byte>)
    requires cut <= |all| < U64_RANGE && AllInRange(all) && NextRecord(tail).None?
    ensures var r := ReadWal(Log(cut + 1, all[cut..]) + tail);
            && r.commands == all[cut..] && r.truncated == |tail| && !r.gap
            && (cut < |all| ==> r.firstSeq == cut + 1 && r.lastSeq == |all|)
  {
    hide Log, ReadWal, NextRecord;
    assert all == all[..cut] + all[cut..];
    InRangeSplit(all[..cut], all[cut..]);
    ReadThrough(cut + 1, all[cut..], tail);
  }

  lemma TruncatedLog(all: seq<Command>, cut: nat, first: nat, keepAfter: nat)
    requires cut <= |all| && (cut < |all| ==> first == cut + 1)
    ensures var d := Dropped(first, |all[cut..]|, keepAfter);
            && Log(first + d, all[cut..][d..]) == Log(cut + d + 1, all[cut + d..])
            && cut + d == Max(cut, Min(keepAfter, |all|))
  {
    var d := Dropped(first, |all[cut..]|, keepAfter);
    assert all[cut..][d..] == all[cut + d..];
    if cut == |all| {
      assert all[cut..] == [];
    }
  }

  lemma LogOne(first: nat, c: Command)
    ensures Log(first, [c]) == Record(first, c)
  {
    hide Record;
    assert [c][1..] == [];
    assert Log(first + 1, []) == [];
    assert Record(first, c) + [] == Record(first, c);
  }
}
