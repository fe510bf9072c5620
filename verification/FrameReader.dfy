/** Frame reassembly from a byte stream (include/ome/frame_reader.hpp and
    encode_frame in include/ome/protocol.hpp). */
module Frames {
  import opened Orders
  import opened Crc
  import opened Codec
  import opened WriteAheadLog
  import opened Protocol

  const FRAME_HEADER := 8
  const MAX_FRAME := 65536
  const COMPACT_THRESHOLD := 65536
  const FRAME_WIDTHS: seq<nat> := [4, 2, 2]

  datatype Frame = Frame(code: nat, version: nat, payload: seq<byte>)

  function FrameBytes(f: Frame): seq<byte> {
    Encode(Zip([|f.payload|, f.code, f.version], FRAME_WIDTHS)) + f.payload
  }

  predicate FrameOk(f: Frame) {
    |f.payload| <= MAX_FRAME && f.code < 65536 && f.version < 65536
  }

  /** What the front of a buffer holds. */
  datatype Front = NeedMore | Oversized | Ready(frame: Frame, rest: seq<byte>)

  function NextFront(s: seq<byte>): (r: Front)
    ensures r.Ready? ==> |r.rest| < |s|
  {
    var h := Decode(s, FRAME_WIDTHS);
    FrameTotal();
    if h.None? then NeedMore
    else
      var len := h.value.values[0];
      if len > MAX_FRAME then Oversized
      else if |h.value.rest| < len then NeedMore
      else Ready(Frame(h.value.values[1], h.value.values[2], h.value.rest[..len]), h.value.rest[len..])
  }

  datatype Stream = Stream(frames: seq<Frame>, rest: seq<byte>, failed: bool)

  /** Parsing the whole stream at once. */
  function ParseAll(s: seq<byte>): Stream
    decreases |s|
  {
    match NextFront(s)
    case NeedMore => Stream([], s, false)
    case Oversized => Stream([], s, true)
    case Ready(f, rest) => var t := ParseAll(rest); Stream([f] + t.frames, t.rest, t.failed)
  }

  function Concat(fs: seq<Frame>): seq<byte> {
    if fs == [] then [] else FrameBytes(fs[0]) + Concat(fs[1..])
  }

  ghost predicate AllOk(fs: seq<Frame>) {
    fs == [] || (FrameOk(fs[0]) && AllOk(fs[1..]))
  }

  lemma FrameTotal()
    ensures Total(FRAME_WIDTHS) == FRAME_HEADER
  {
    assert FRAME_WIDTHS[1..] == [2, 2];
    assert [2, 2][1..] == [2];
  }

  lemma FrameFits(f: Frame)
    requires FrameOk(f)
    ensures FitsWidths([|f.payload|, f.code, f.version], FRAME_WIDTHS)
  {
    RangeValues();
  }

  /** A whole frame at the front is returned, whatever follows it. */
  lemma FrontOfFrame(f: Frame, rest: seq<byte>)
    requires FrameOk(f)
    ensures NextFront(FrameBytes(f) + rest) == Ready(f, rest)
  {
    hide Decode, Encode, Zip, FitsWidths;
    FrameFits(f);
    var v := [|f.payload|, f.code, f.version];
    ZipRoundTrip(v, FRAME_WIDTHS, f.payload + rest);
    assert FrameBytes(f) + rest == Encode(Zip(v, FRAME_WIDTHS)) + (f.payload + rest);
    assert (f.payload + rest)[..|f.payload|] == f.payload && (f.payload + rest)[|f.payload|..] == rest;
  }

  /** A frame that was returned re-encodes to exactly the bytes it consumed. */
  lemma FrameConsumed(s: seq<byte>)
    requires NextFront(s).Ready?
    ensures FrameOk(NextFront(s).frame) && FrameBytes(NextFront(s).frame) + NextFront(s).rest == s
  {
    hide Decode, Encode, Zip;
    var h := Decode(s, FRAME_WIDTHS).value;
    HeaderValuesOk(s);
    FrameTotal();
    var f := NextFront(s).frame;
    EncodeDecode(s, FRAME_WIDTHS);
    assert h.values == [|f.payload|, f.code, f.version];
    assert h.rest == f.payload + NextFront(s).rest;
    hide NextFront;
    assert Encode(Zip(h.values, FRAME_WIDTHS)) + (f.payload + NextFront(s).rest)
        == Encode(Zip(h.values, FRAME_WIDTHS)) + f.payload + NextFront(s).rest;
  }

  lemma HeaderValuesOk(s: seq<byte>)
    requires NextFront(s).Ready?
    ensures FrameOk(NextFront(s).frame)
  {
    var h := Decode(s, FRAME_WIDTHS).value;
    DecodeFits(s, FRAME_WIDTHS);
    RangeValues();
    hide Range;
    assert h.values[1] < Range(FRAME_WIDTHS[1]) && h.values[2] < Range(FRAME_WIDTHS[2]);
  }

  /** Frames already returned, followed by the parse of what is left. */
  function Prepended(fs: seq<Frame>, t: Stream): Stream {
    Stream(fs + t.frames, t.rest, t.failed)
  }

  lemma {:induction false} ParseAfter(fs: seq<Frame>, s: seq<byte>)
    requires AllOk(fs)
    ensures ParseAll(Concat(fs) + s) == Prepended(fs, ParseAll(s))
  {
    hide FrameBytes, NextFront;
    if fs == [] {
      assert Concat(fs) + s == s;
      assert [] + ParseAll(s).frames == ParseAll(s).frames;
    } else {
      var rest := Concat(fs[1..]) + s;
      assert Concat(fs) + s == FrameBytes(fs[0]) + rest;
      FrontOfFrame(fs[0], rest);
      ParseAfter(fs[1..], s);
      assert fs + ParseAll(s).frames == [fs[0]] + (fs[1..] + ParseAll(s).frames);
    }
  }

  /** On any bytes: the frames parsed re-encode to exactly what was consumed, what is
      left holds no further frame, and a failure means an oversized claim is next. */
  lemma {:induction false} ParseConsumes(s: seq<byte>)
    ensures var t := ParseAll(s);
            && AllOk(t.frames) && Concat(t.frames) + t.rest == s && !NextFront(t.rest).Ready?
            && (t.failed <==> NextFront(t.rest).Oversized?)
    decreases |s|
  {
    hide FrameBytes, FrameOk, NextFront;
    var front := NextFront(s);
    if front.Ready? {
      FrameConsumed(s);
      ParseConsumes(front.rest);
      var t := ParseAll(front.rest);
      assert ([front.frame] + t.frames)[1..] == t.frames;
      assert FrameBytes(front.frame) + Concat(t.frames) + t.rest
          == FrameBytes(front.frame) + (Concat(t.frames) + t.rest);
    }
  }

  lemma {:induction false} ConcatAppend(a: seq<Frame>, b: seq<Frame>)
    ensures Concat(a + b) == Concat(a) + Concat(b)
    ensures AllOk(a + b) <==> AllOk(a) && AllOk(b)
  {
    hide FrameBytes;
    if a == [] {
      assert a + b == b;
    } else {
      assert (a + b)[1..] == a[1..] + b;
      ConcatAppend(a[1..], b);
    }
  }

  /** An oversized length claim stays one however many bytes follow. */
  lemma OversizedStays(s: seq<byte>, more: seq<byte>)
    requires NextFront(s).Oversized?
    ensures NextFront(s + more).Oversized?
  {
    DecodePrefix(s, more, FRAME_WIDTHS);
  }

  lemma {:induction false} DecodePrefix(s: seq<byte>, more: seq<byte>, ws: seq<nat>)
    requires Total(ws) <= |s|
    ensures Total(ws) <= |s + more| && Decode(s + more, ws).value.values == Decode(s, ws).value.values
    decreases ws
  {
    if ws != [] {
      assert (s + more)[ws[0]..] == s[ws[0]..] + more;
      assert (s + more)[..ws[0]] == s[..ws[0]];
      DecodePrefix(s[ws[0]..], more, ws[1..]);
    }
  }

  // ----- messages -----------------------------------------------------------

  const WIRE_VERSION := 1

  function FrameOf(m: Message): Frame {
    Frame(CodeOf(m), WIRE_VERSION, Payload(m))
  }

  function FramesOf(ms: seq<Message>): (fs: seq<Frame>)
    ensures |fs| == |ms|
  {
    if ms == [] then [] else [FrameOf(ms[0])] + FramesOf(ms[1..])
  }

  ghost predicate AllInRangeMsg(ms: seq<Message>) {
    ms == [] || (MessageInRange(ms[0]) && AllInRangeMsg(ms[1..]))
  }

  lemma {:induction false} FramesOfOk(ms: seq<Message>)
    requires AllInRangeMsg(ms)
    ensures AllOk(FramesOf(ms))
    ensures forall i :: 0 <= i < |ms| ==>
              DecodeMessage(FramesOf(ms)[i].code, FramesOf(ms)[i].payload) == Some(Clamp(ms[i]))
  {
    hide DecodeMessage, Payload, MessageInRange;
    if ms != [] {
      MessageRoundTrip(ms[0]);
      FramesOfOk(ms[1..]);
    }
  }

  /** A stream of encoded messages parses into one frame per message, in order,
      with nothing left over, and each decodes back to the message sent. */
  lemma MessagesRoundTrip(ms: seq<Message>)
    requires AllInRangeMsg(ms)
    ensures ParseAll(Concat(FramesOf(ms))) == Stream(FramesOf(ms), [], false)
    ensures forall i :: 0 <= i < |ms| ==>
              DecodeMessage(FramesOf(ms)[i].code, FramesOf(ms)[i].payload) == Some(Clamp(ms[i]))
  {
    hide FramesOf, Concat, DecodeMessage;
    FramesOfOk(ms);
    ParseAfter(FramesOf(ms), []);
    EmptyParse();
    assert Concat(FramesOf(ms)) + [] == Concat(FramesOf(ms));
    assert FramesOf(ms) + [] == FramesOf(ms);
  }

  lemma EmptyParse()
    ensures ParseAll([]) == Stream([], [], false)
  {
    FrameTotal();
  }

  // ----- the reader ---------------------------------------------------------

  /** Decodes the header at the front and waits for its payload. */
  method ReadFront(s: seq<byte>) returns (r: Front)
    ensures r == NextFront(s)
  {
    var rd := new Reader(s);
    var h := rd.ReadFields(FRAME_WIDTHS);
    assert s[0..] == s;
    FrameTotal();
    if !rd.ok {
      return NeedMore;
    }
    if h[0] > MAX_FRAME {
      return Oversized;
    }
    if |s| - rd.pos < h[0] {
      return NeedMore;
    }
    var rest := s[rd.pos..];
    r := Ready(Frame(h[1], h[2], rest[..h[0]]), rest[h[0]..]);
  }

  lemma RestOfFront(s: seq<byte>)
    requires NextFront(s).Ready?
    ensures var rest := NextFront(s).rest; |rest| <= |s| && rest == s[|s| - |rest|..]
  {
  }

  /** Buffers bytes and hands out frames.  `received` is everything appended,
      `returned` every frame handed out. */
  class FrameReader {
    var buf: seq<byte>
    var pos: nat
    var failed: bool
    ghost var received: seq<byte>
    ghost var returned: seq<Frame>

    /** The frames returned are exactly the bytes consumed; a failure is real. */
    ghost predicate Valid()
      reads this
    {
      && pos <= |buf| && AllOk(returned)
      && (if failed then NextFront(buf[pos..]).Oversized? && Concat(returned) + buf[pos..] <= received
          else Concat(returned) + buf[pos..] == received)
    }

    constructor ()
      ensures Valid() && received == [] && returned == [] && !failed
    {
      buf, pos, failed := [], 0, false;
      received, returned := [], [];
    }

    method Append(data: seq<byte>)
      requires Valid()
      modifies this
      ensures Valid() && received == old(received) + data && returned == old(returned) && failed == old(failed)
      ensures returned <= ParseAll(received).frames
    {
      hide NextFront, Concat, AllOk, ParseAll;
      ReturnedIsPrefix(returned, buf[pos..], received + data);
      received := received + data;
      if failed {
        return;
      }
      assert (buf + data)[pos..] == buf[pos..] + data;
      assert Concat(returned) + (buf[pos..] + data) == Concat(returned) + buf[pos..] + data;
      buf := buf + data;
    }

    /** Hands out the next frame of the stream, or reports that the stream so far
        holds no further frame. */
    method NextFrame() returns (f: Option<Frame>)
      requires Valid()
      modifies this
      ensures Valid() && received == old(received)
      ensures f.Some? ==> returned == old(returned) + [f.value] && returned <= ParseAll(received).frames
      ensures f.None? ==> returned == old(returned) && ParseAll(received).frames == returned
      ensures f.None? ==> failed == ParseAll(received).failed
    {
      hide Concat, AllOk, ParseAll, NextFront;
      if failed {
        FailedParse(returned, buf[pos..], received);
        return None;
      }
      var front := ReadFront(buf[pos..]);
      if !front.Ready? {
        StuckParse(returned, buf[pos..]);
        failed := front.Oversized?;
        return None;
      }
      Consumed(returned, buf[pos..]);
      RestOfFront(buf[pos..]);
      var need := |buf| - pos - |front.rest|;
      assert buf[pos..][need..] == buf[pos + need..];
      returned := returned + [front.frame];
      pos := pos + need;
      ReturnedIsPrefix(returned, buf[pos..], received);
      CompactIfNeeded();
      f := Some(front.frame);
    }

    method CompactIfNeeded()
      requires Valid() && !failed
      modifies this`buf, this`pos
      ensures Valid() && buf[pos..] == old(buf[pos..])
    {
      hide NextFront, Concat, AllOk;
      if pos == |buf| {
        buf, pos := [], 0;
      } else if pos >= COMPACT_THRESHOLD {
        buf, pos := buf[pos..], 0;
      }
    }
  }

  /** At any moment the frames returned are a prefix of the parse of everything
      received, however it was cut into pieces. */
  lemma ReturnedIsPrefix(returned: seq<Frame>, pending: seq<byte>, received: seq<byte>)
    requires AllOk(returned) && Concat(returned) + pending <= received
    ensures returned <= ParseAll(received).frames
  {
    hide Concat, AllOk, ParseAll;
    var rest := received[|Concat(returned)|..];
    assert received == Concat(returned) + rest;
    ParseAfter(returned, rest);
  }

  lemma StuckParse(returned: seq<Frame>, pending: seq<byte>)
    requires AllOk(returned) && !NextFront(pending).Ready?
    ensures var t := ParseAll(Concat(returned) + pending);
            t.frames == returned && t.failed == NextFront(pending).Oversized?
  {
    hide NextFront, Concat;
    ParseAfter(returned, pending);
    assert returned + [] == returned;
  }

  lemma FailedParse(returned: seq<Frame>, pending: seq<byte>, received: seq<byte>)
    requires AllOk(returned) && NextFront(pending).Oversized? && Concat(returned) + pending <= received
    ensures ParseAll(received).frames == returned && ParseAll(received).failed
  {
    var more := received[|Concat(returned) + pending|..];
    assert received == Concat(returned) + (pending + more);
    OversizedStays(pending, more);
    StuckParse(returned, pending + more);
  }

  lemma Consumed(returned: seq<Frame>, pending: seq<byte>)
    requires AllOk(returned) && NextFront(pending).Ready?
    ensures var r := NextFront(pending);
            AllOk(returned + [r.frame]) && Concat(returned + [r.frame]) + r.rest == Concat(returned) + pending
  {
    hide NextFront, FrameBytes;
    var r := NextFront(pending);
    FrameConsumed(pending);
    ConcatAppend(returned, [r.frame]);
    assert [r.frame][1..] == [];
    assert Concat([r.frame]) == FrameBytes(r.frame) + [];
    assert Concat(returned) + FrameBytes(r.frame) + r.rest == Concat(returned) + (FrameBytes(r.frame) + r.rest);
  }
}
