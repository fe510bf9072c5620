/** What the log reader (include/ome/wal.hpp) makes of bytes appended behind a
    record that was cut short.  Reopening the log does not remove such a tail. */
module TornTails {
  import opened Orders
  import opened Crc
  import opened Codec
  import opened ThreadSpec
  import opened WriteAheadLog

  // ----- what counts as a record --------------------------------------------

  lemma HeaderCanonical(buf: seq<byte>)
    requires |buf| >= HEADER
    ensures Total(HEADER_WIDTHS) <= |buf|
    ensures var v := Decode(buf, HEADER_WIDTHS).value.values;
            buf[..HEADER] == Header(v[0], v[1], v[2]) && v[2] < U64_RANGE
  {
    WidthTotals();
    EncodeDecode(buf, HEADER_WIDTHS);
    DecodeFits(buf, HEADER_WIDTHS);
    RangeValues();
    hide Decode, Encode, Zip, Range;
    var p := Decode(buf, HEADER_WIDTHS).value;
    assert p.values == [p.values[0], p.values[1], p.values[2]];
    assert |Encode(Zip(p.values, HEADER_WIDTHS))| == HEADER;
  }

  /** The parts of an accepted record. */
  lemma AcceptedParts(buf: seq<byte>)
    requires NextRecord(buf).Some?
    ensures Decode(buf, HEADER_WIDTHS).Some?
    ensures var h, e := Decode(buf, HEADER_WIDTHS).value, NextRecord(buf).value;
            && h.values[0] <= |h.rest| && e.seqno == h.values[2]
            && Crc32(h.rest[..h.values[0]]) == h.values[1]
            && DecodeCommand(h.rest[..h.values[0]]) == Some(e.command) && e.rest == h.rest[h.values[0]..]
  {
    hide Crc32, DecodeCommand, Decode, Total;
  }

  /** An accepted record is byte for byte the encoding of what it yields. */
  lemma AcceptedIs(buf: seq<byte>)
    requires NextRecord(buf).Some?
    ensures var e := NextRecord(buf).value;
            && InRange(e.command) && e.seqno < U64_RANGE && |buf| >= RECORD
            && buf[..RECORD] == Record(e.seqno, e.command) && e.rest == buf[RECORD..]
  {
    hide NextRecord, Decode, Header, EncodeCommand, Crc32, DecodeCommand, Total, InRange;
    AcceptedParts(buf);
    WidthTotals();
    HeaderCanonical(buf);
    var e, h := NextRecord(buf).value, Decode(buf, HEADER_WIDTHS).value;
    var p := h.rest[..h.values[0]];
    CommandCanonical(p);
    CommandRoundTrip(e.command);
    assert |p| == PAYLOAD;
    assert buf[..RECORD] == buf[..HEADER] + p;
  }

  /** The reader takes a command from the front of a buffer exactly when its
      record is there. */
  lemma AcceptsExactly(buf: seq<byte>, n: nat, c: Command)
    requires InRange(c) && n < U64_RANGE
    ensures Record(n, c) <= buf <==>
              NextRecord(buf).Some? && NextRecord(buf).value.command == c && NextRecord(buf).value.seqno == n
  {
    hide NextRecord, Record;
    RecordRoundTrip(n, c, []);
    if Record(n, c) <= buf {
      RecordRoundTrip(n, c, buf[RECORD..]);
      assert buf == Record(n, c) + buf[RECORD..];
    }
    if NextRecord(buf).Some? {
      AcceptedIs(buf);
    }
  }

  lemma ShortRefused(buf: seq<byte>)
    requires |buf| < RECORD
    ensures NextRecord(buf).None?
  {
    hide NextRecord;
    if NextRecord(buf).Some? {
      AcceptedIs(buf);
    }
  }

  // ----- any bytes at all ---------------------------------------------------

  /** Where a read stops: at something that is no record, or at one out of turn. */
  ghost predicate StopsHere(rest: seq<byte>, lastSeq: nat, gap: bool) {
    var e := NextRecord(rest);
    if gap then e.Some? && e.value.seqno != lastSeq + 1 else e.None?
  }

  lemma {:induction false} ScanIsLog(buf: seq<byte>, r: ReadResult) returns (more: seq<Command>, rest: seq<byte>)
    requires r.lastSeq > 0 && r.commands != [] && r.truncated == 0 && !r.gap
    ensures var t := Scan(buf, r);
            && t == ReadResult(r.commands + more, r.firstSeq, r.lastSeq + |more|, |rest|, t.gap)
            && AllInRange(more) && buf == Log(r.lastSeq + 1, more) + rest && StopsHere(rest, t.lastSeq, t.gap)
    decreases |buf|
  {
    hide NextRecord, Record, InRange;
    var e := NextRecord(buf);
    if e.None? || e.value.seqno != r.lastSeq + 1 {
      more, rest := [], buf;
      assert r.commands + [] == r.commands && Log(r.lastSeq + 1, []) + buf == buf;
    } else {
      AcceptedIs(buf);
      var a := Accept(r, e.value);
      var m, t := ScanIsLog(e.value.rest, a);
      more, rest := [e.value.command] + m, t;
      assert more[1..] == m;
      assert r.commands + more == a.commands + m;
      assert buf == buf[..RECORD] + e.value.rest;
      assert buf == Record(e.value.seqno, e.value.command) + (Log(a.lastSeq + 1, m) + rest);
      assert Log(r.lastSeq + 1, more) == Record(e.value.seqno, e.value.command) + Log(a.lastSeq + 1, m);
    }
  }

  /** Whatever the bytes, what is read is the log at their front, byte for byte,
      and the read stops only where there is no further record of that log.  A
      first number of 0, which no writer gives, switches the numbering check off
      for the record behind it. */
  lemma ReadIsLog(file: seq<byte>)
    ensures var t := ReadWal(file); t.commands == [] ==>
              t == NothingRead.(truncated := |file|) && NextRecord(file).None?
    ensures var t := ReadWal(file); t.commands != [] && t.firstSeq > 0 ==>
              && AllInRange(t.commands) && t.lastSeq == t.firstSeq + |t.commands| - 1 && t.truncated <= |file|
              && file[..|file| - t.truncated] == Log(t.firstSeq, t.commands)
              && StopsHere(file[|file| - t.truncated..], t.lastSeq, t.gap)
  {
    hide NextRecord, Record, InRange;
    var e := NextRecord(file);
    if e.Some? {
      ReadGrows(file);
      if e.value.seqno > 0 {
        AcceptedIs(file);
        var a := Accept(NothingRead, e.value);
        var more, rest := ScanIsLog(e.value.rest, a);
        var cs := [e.value.command] + more;
        assert [] + [e.value.command] == [e.value.command] && a.commands + more == cs && cs[1..] == more;
        assert file == file[..RECORD] + e.value.rest;
        assert file == Record(e.value.seqno, e.value.command) + Log(e.value.seqno + 1, more) + rest;
        assert Log(e.value.seqno, cs) == Record(e.value.seqno, e.value.command) + Log(e.value.seqno + 1, more);
      }
    }
  }

  lemma ReadGrows(file: seq<byte>)
    requires NextRecord(file).Some?
    ensures var e := NextRecord(file).value; ReadWal(file) == Scan(e.rest, Accept(NothingRead, e))
    ensures ReadWal(file).commands != [] && ReadWal(file).firstSeq == NextRecord(file).value.seqno
  {
    hide NextRecord;
    var e := NextRecord(file).value;
    ScanKeepsFirst(e.rest, Accept(NothingRead, e));
  }

  lemma {:induction false} ScanKeepsFirst(buf: seq<byte>, r: ReadResult)
    requires r.commands != []
    ensures Scan(buf, r).commands != [] && Scan(buf, r).firstSeq == r.firstSeq
    decreases |buf|
  {
    hide NextRecord;
    var e := NextRecord(buf);
    if e.Some? && !(r.lastSeq != 0 && e.value.seqno != r.lastSeq + 1) {
      ScanKeepsFirst(e.value.rest, Accept(r, e.value));
    }
  }

  // ----- cuts inside the length field ---------------------------------------

  lemma HeaderStarts(length: nat, crc: nat, seqno: nat)
    requires length < 256
    ensures |Header(length, crc, seqno)| >= 4 && Header(length, crc, seqno)[..4] == [length, 0, 0, 0]
  {
    FourBytes(length);
    hide Put;
    var fs := Zip([length, crc, seqno], HEADER_WIDTHS);
    assert fs[0] == Field(length, 4);
    assert Header(length, crc, seqno) == Put(length, 4) + Encode(fs[1..]);
  }

  lemma RecordStarts(seqno: nat, c: Command)
    requires InRange(c) && seqno < U64_RANGE
    ensures |Record(seqno, c)| == RECORD && Record(seqno, c)[..4] == [PAYLOAD, 0, 0, 0]
  {
    CommandRoundTrip(c);
    hide EncodeCommand, Crc32, Header;
    RecordRoundTrip(seqno, c, []);
    HeaderStarts(PAYLOAD, Crc32(EncodeCommand(c)), seqno);
  }

  /** Whatever is accepted starts as records do. */
  lemma AcceptedStarts(buf: seq<byte>)
    ensures NextRecord(buf).Some? ==> |buf| >= 4 && buf[..4] == [PAYLOAD, 0, 0, 0]
  {
    hide NextRecord, Record;
    if NextRecord(buf).Some? {
      AcceptedIs(buf);
      RecordStarts(NextRecord(buf).value.seqno, NextRecord(buf).value.command);
      assert buf[..4] == buf[..RECORD][..4];
    }
  }

  lemma FourBytes(v: nat)
    requires v < 256
    ensures Put(v, 4) == [v, 0, 0, 0]
  {
    assert Put(0, 1) == [0] && Put(0, 2) == [0] + Put(0, 1) && Put(0, 3) == [0] + Put(0, 2);
  }

  /** A cut within the length field hides everything appended behind it: what is
      read there as a length is never that of a command. */
  lemma EarlyCut(n: nat, lost: Command, k: nat, more: seq<Command>)
    requires InRange(lost) && AllInRange(more) && more != [] && n + |more| <= U64_RANGE && 1 <= k <= 3
    ensures |Record(n, lost)| == RECORD && NextRecord(Record(n, lost)[..k] + Log(n, more)).None?
  {
    hide Record, NextRecord;
    RecordStarts(n, lost);
    RecordStarts(n, more[0]);
    LogLength(n, more);
    var buf := Record(n, lost)[..k] + Log(n, more);
    assert buf[k] == Log(n, more)[..4][0] == Record(n, more[0])[..4][0] == PAYLOAD;
    assert buf[..4][k] == PAYLOAD;
    AcceptedStarts(buf);
  }

  // ----- cuts inside the last four bytes ------------------------------------

  /** With at most four bytes missing, the reader accepts the torn record exactly
      when the bytes that follow happen to complete it. */
  lemma LateCut(n: nat, lost: Command, k: nat, rest: seq<byte>)
    requires InRange(lost) && n < U64_RANGE && RECORD - 4 <= k < RECORD && |rest| >= RECORD - k
    ensures |Record(n, lost)| == RECORD
    ensures var e := NextRecord(Record(n, lost)[..k] + rest);
            && (e.Some? <==> rest[..RECORD - k] == Record(n, lost)[k..])
            && (e.Some? ==> e.value == Entry(lost, n, rest[RECORD - k..]))
  {
    hide Record, NextRecord;
    RecordRoundTrip(n, lost, rest[RECORD - k..]);
    var r := Record(n, lost);
    var buf := r[..k] + rest;
    if rest[..RECORD - k] == r[k..] {
      assert buf == r + rest[RECORD - k..] by {
        assert r == r[..k] + r[k..] && rest == rest[..RECORD - k] + rest[RECORD - k..];
      }
    } else {
      LateRefused(n, lost, k, rest);
    }
  }

  /** Cutting h + a + m before m and going on with `rest`. */
  lemma Spliced(h: seq<byte>, a: seq<byte>, m: seq<byte>, rest: seq<byte>)
    requires |m| <= |rest|
    ensures var r, k := h + (a + m), |h| + |a|;
            r[k..] == m && r[..k] + rest == h + (a + rest[..|m|]) + rest[|m|..]
  {
  }

  lemma LateRefused(n: nat, lost: Command, k: nat, rest: seq<byte>)
    requires InRange(lost) && n < U64_RANGE && RECORD - 4 <= k < RECORD && |rest| >= RECORD - k
    requires |Record(n, lost)| == RECORD && rest[..RECORD - k] != Record(n, lost)[k..]
    ensures NextRecord(Record(n, lost)[..k] + rest).None?
  {
    hide EncodeCommand, Crc32, Header, NextRecord, InRange;
    CommandRoundTrip(lost);
    var good := EncodeCommand(lost);
    var a, m, b := good[..k - HEADER], good[k - HEADER..], rest[..RECORD - k];
    var h := Header(|good|, Crc32(good), n);
    CrcFits(good);
    HeaderRoundTrip(|good|, Crc32(good), n, []);
    assert good == a + m;
    Spliced(h, a, m, rest);
    ChecksumDiffers(a, m, b);
    RejectsChecksum(|good|, Crc32(good), n, a + b, rest[RECORD - k..]);
  }

  lemma ChecksumDiffers(a: seq<byte>, m: seq<byte>, b: seq<byte>)
    requires |m| == |b| <= 4 && m != b
    ensures Crc32(a + b) != Crc32(a + m)
  {
    hide Crc32;
    DetectsFourBytes(a, m, b, []);
    assert a + m + [] == a + m && a + b + [] == a + b;
  }

  /** Behind an intact header the checksum decides, and with it whether a record
      nobody finished is taken for one. */
  lemma MiddleCut(n: nat, lost: Command, k: nat, rest: seq<byte>)
    requires InRange(lost) && n < U64_RANGE && HEADER <= k < RECORD && |rest| >= RECORD - k
    ensures |Record(n, lost)| == RECORD && |EncodeCommand(lost)| == PAYLOAD
    ensures var p := EncodeCommand(lost)[..k - HEADER] + rest[..RECORD - k];
            NextRecord(Record(n, lost)[..k] + rest).Some? <==>
              Crc32(p) == Crc32(EncodeCommand(lost)) && DecodeCommand(p).Some?
  {
    hide EncodeCommand, Crc32, Header, NextRecord, InRange, DecodeCommand;
    CommandRoundTrip(lost);
    RecordRoundTrip(n, lost, []);
    var good := EncodeCommand(lost);
    var a, m, b := good[..k - HEADER], good[k - HEADER..], rest[..RECORD - k];
    CrcFits(good);
    HeaderRoundTrip(|good|, Crc32(good), n, []);
    assert good == a + m;
    Spliced(Header(|good|, Crc32(good), n), a, m, rest);
    Judged(Crc32(good), n, a + b, rest[RECORD - k..]);
  }

  lemma Judged(crc: nat, n: nat, p: seq<byte>, rest: seq<byte>)
    requires |p| == PAYLOAD && crc < 0x1_0000_0000 && n < U64_RANGE
    ensures NextRecord(Header(PAYLOAD, crc, n) + p + rest).Some? <==> Crc32(p) == crc && DecodeCommand(p).Some?
  {
    hide Decode, DecodeCommand, Crc32, Header;
    HeaderRoundTrip(PAYLOAD, crc, n, p + rest);
    assert Header(PAYLOAD, crc, n) + p + rest == Header(PAYLOAD, crc, n) + (p + rest);
    assert (p + rest)[..PAYLOAD] == p;
  }

  // ----- the whole log ------------------------------------------------------

  lemma {:induction false} ScanGrows(buf: seq<byte>, r: ReadResult)
    ensures r.commands <= Scan(buf, r).commands
    decreases |buf|
  {
    hide NextRecord;
    var e := NextRecord(buf);
    if e.Some? && (r.lastSeq == 0 || e.value.seqno == r.lastSeq + 1) {
      ScanGrows(e.value.rest, Accept(r, e.value));
    }
  }

  /** The first bytes of every record. */
  const RecordStart: seq<byte> := [PAYLOAD, 0, 0, 0]

  /** What is read of a log appended to behind a torn record: for a cut in the
      length field exactly what was there before; for a cut in the last four bytes
      that too, exactly unless the missing bytes are those every record starts
      with, and then the record that was never finished comes first. */
  lemma BuriedExactly(first: nat, cs: seq<Command>, lost: Command, k: nat, more: seq<Command>)
    requires AllInRange(cs) && AllInRange(more) && InRange(lost) && more != []
    requires first > 0 && first + |cs| + |more| <= U64_RANGE
    requires 1 <= k <= 3 || RECORD - 4 <= k < RECORD
    ensures |Record(first + |cs|, lost)| == RECORD
    ensures var r := Record(first + |cs|, lost);
            var read := ReadWal(Log(first, cs) + (r[..k] + Log(first + |cs|, more))).commands;
            && (read == cs <==> k <= 3 || r[k..] != RecordStart[..RECORD - k])
            && (read != cs ==> cs + [lost] <= read)
  {
    hide Record, NextRecord, Log, ReadWal;
    var n := first + |cs|;
    RecordStarts(n, lost);
    var r, behind := Record(n, lost), Log(n, more);
    LogStarts(n, more);
    if k <= 3 {
      EarlyCut(n, lost, k, more);
      StopsAt(first, cs, r[..k] + behind);
    } else {
      LateCut(n, lost, k, behind);
      assert behind[..RECORD - k] == behind[..4][..RECORD - k];
      if r[k..] == RecordStart[..RECORD - k] {
        Resurrected(first, cs, lost, r[..k] + behind);
      } else {
        StopsAt(first, cs, r[..k] + behind);
      }
    }
  }

  lemma LogStarts(n: nat, more: seq<Command>)
    requires AllInRange(more) && more != [] && n + |more| <= U64_RANGE
    ensures |Log(n, more)| == RECORD * |more| && Log(n, more)[..4] == RecordStart
  {
    hide Record;
    LogLength(n, more);
    RecordStarts(n, more[0]);
  }

  /** A record read behind a log joins it. */
  lemma Resurrected(first: nat, cs: seq<Command>, x: Command, buf: seq<byte>)
    requires AllInRange(cs) && first > 0 && first + |cs| <= U64_RANGE
    requires NextRecord(buf).Some? && NextRecord(buf).value.command == x && NextRecord(buf).value.seqno == first + |cs|
    ensures cs + [x] <= ReadWal(Log(first, cs) + buf).commands
  {
    hide Log, NextRecord;
    ScanThrough(first, cs, buf, NothingRead);
    var a := After(NothingRead, first, cs);
    var e := NextRecord(buf).value;
    assert [] + cs == cs;
    ScanGrows(e.rest, Accept(a, e));
  }

  /** A market order for 0x1F0000 units ends in the four bytes a record starts
      with: cut there, it comes back to life. */
  const Revenant := Command(NewOrder, 1, 5, 0, 0x1F0000, Bid, true)

  lemma PutRevenant()
    ensures Put(0x1F0000, 4) == [0, 0, 0x1F, 0] && Put(0, 1) == [0]
  {
    assert Put(0x1F0000, 4) == [0] + Put(0x1F00, 3) && Put(0x1F00, 3) == [0] + Put(0x1F, 2);
    assert Put(0x1F, 2) == [0x1F] + Put(0, 1);
  }

  lemma LastFields(q: nat, s: nat, t: nat)
    ensures Encode(Zip([q, s, t], [4, 1, 1])) == Put(q, 4) + (Put(s, 1) + Put(t, 1))
  {
    EncodeNone();
    hide Put, Encode, Zip;
    EncodeCons(t, 1, [], []);
    EncodeCons(s, 1, [t], [1]);
    EncodeCons(q, 4, [s, t], [1, 1]);
    assert [t] + [] == [t] && [1] + [] == [1] && Put(t, 1) + [] == Put(t, 1);
    assert [s] + [t] == [s, t] && [1] + [1] == [1, 1];
    assert [q] + [s, t] == [q, s, t] && [4] + [1, 1] == [4, 1, 1];
  }

  lemma EncodeNone()
    ensures Encode(Zip([], [])) == []
  {
  }

  /** The last three fields of a payload take its last six bytes. */
  lemma PayloadEnds(a: nat, b: nat, c: nat, d: nat, last: seq<nat>)
    requires |last| == 3 && |Encode(Zip(last, [4, 1, 1]))| == 6
    ensures |[a, b, c, d] + last| == |COMMAND_WIDTHS|
    ensures var p := Encode(Zip([a, b, c, d] + last, COMMAND_WIDTHS));
            |p| == PAYLOAD && p[PAYLOAD - 6..] == Encode(Zip(last, [4, 1, 1]))
  {
    hide Put, Encode, Zip;
    EncodeCons(d, 8, last, [4, 1, 1]);
    EncodeCons(c, 8, [d] + last, [8] + [4, 1, 1]);
    EncodeCons(b, 8, [c] + ([d] + last), [8] + ([8] + [4, 1, 1]));
    EncodeCons(a, 1, [b] + ([c] + ([d] + last)), [8] + ([8] + ([8] + [4, 1, 1])));
    assert [a] + ([b] + ([c] + ([d] + last))) == [a, b, c, d] + last;
    assert [1] + ([8] + ([8] + ([8] + [4, 1, 1]))) == COMMAND_WIDTHS;
  }

  lemma RecordEnds(n: nat, c: Command, p: seq<byte>)
    requires InRange(c) && n < U64_RANGE && p == EncodeCommand(c) && |p| == PAYLOAD
    ensures |Record(n, c)| == RECORD && Record(n, c)[RECORD - 4..] == p[PAYLOAD - 4..]
  {
    hide EncodeCommand, Crc32, Header;
    CrcFits(p);
    HeaderRoundTrip(|p|, Crc32(p), n, []);
    var h := Header(|p|, Crc32(p), n);
    assert Record(n, c) == h + p && |h| == HEADER;
  }

  lemma RevenantPayload()
    ensures var p := EncodeCommand(Revenant); |p| == PAYLOAD && p[PAYLOAD - 4..] == RecordStart
  {
    hide Put, Encode, Zip;
    PutRevenant();
    LastFields(0x1F0000, 0, 0);
    assert CommandValues(Revenant) == [1, 1, 5, 0] + [0x1F0000, 0, 0];
    PayloadEnds(1, 1, 5, 0, [0x1F0000, 0, 0]);
    var p := EncodeCommand(Revenant);
    assert p[PAYLOAD - 6..] == [0, 0, 0x1F, 0, 0, 0];
    assert p[PAYLOAD - 4..] == p[PAYLOAD - 6..][2..];
  }

  lemma RevenantEnds(n: nat)
    requires n < U64_RANGE
    ensures InRange(Revenant) && |Record(n, Revenant)| == RECORD && Record(n, Revenant)[RECORD - 4..] == RecordStart
  {
    hide EncodeCommand, Record;
    RevenantPayload();
    RecordEnds(n, Revenant, EncodeCommand(Revenant));
  }

  // ----- reading back the record just appended ------------------------------

  /** A record appended behind a torn tail is read back exactly when it equals
      the first bytes of the two together. */
  lemma RereadExactly(tail: seq<byte>, n: nat, c: Command)
    requires InRange(c) && n < U64_RANGE
    ensures Record(n, c) <= tail + Record(n, c) <==>
              NextRecord(tail + Record(n, c)).Some? &&
              NextRecord(tail + Record(n, c)).value.command == c && NextRecord(tail + Record(n, c)).value.seqno == n
  {
    AcceptsExactly(tail + Record(n, c), n, c);
  }

  /** For the torn first k bytes of a record: never if the cut is in the length
      field, and if it is in the last four bytes only by appending the very command
      that was lost, and only if it ends as records start. */
  lemma RereadCut(n: nat, lost: Command, k: nat, c: Command)
    requires InRange(lost) && InRange(c) && n < U64_RANGE && 1 <= k < RECORD
    ensures |Record(n, lost)| == RECORD == |Record(n, c)|
    ensures k <= 3 ==> !(Record(n, c) <= Record(n, lost)[..k] + Record(n, c))
    ensures RECORD - 4 <= k ==> (Record(n, c) <= Record(n, lost)[..k] + Record(n, c)
                                 <==> lost == c && Record(n, c)[k..] == RecordStart[..RECORD - k])
  {
    hide Record, NextRecord;
    RecordStarts(n, lost);
    RecordStarts(n, c);
    var r, l := Record(n, c), Record(n, lost);
    if k <= 3 {
      assert (l[..k] + r)[k] == r[..4][0] && r[k] == r[..4][k];
    } else if RECORD - 4 <= k {
      LateCut(n, lost, k, r);
      RereadExactly(l[..k], n, c);
      assert r[..RECORD - k] == r[..4][..RECORD - k];
    }
  }
}
