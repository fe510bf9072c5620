/** Little-endian fields and the cursor that reads them back
    (include/ome/protocol.hpp, detail namespace). */
module Codec {
  import opened Orders
  import opened Crc

  /** The w low bytes of v, least significant first. */
  function Put(v: nat, w: nat): (r: seq<byte>)
    ensures |r| == w
    decreases w
  {
    if w == 0 then [] else [v % 256] + Put(v / 256, w - 1)
  }

  /** The number a run of bytes spells, least significant first. */
  function Get(s: seq<byte>): nat {
    if s == [] then 0 else s[0] + 256 * Get(s[1..])
  }

  /** The first value that does not fit in w bytes. */
  function Range(w: nat): nat {
    if w == 0 then 1 else 256 * Range(w - 1)
  }

  lemma {:induction false} GetPut(v: nat, w: nat)
    requires v < Range(w)
    ensures Get(Put(v, w)) == v
    decreases w
  {
    if w > 0 {
      GetPut(v / 256, w - 1);
      assert Put(v, w)[1..] == Put(v / 256, w - 1);
    }
  }

  lemma {:induction false} PutGet(s: seq<byte>)
    ensures Put(Get(s), |s|) == s && Get(s) < Range(|s|)
  {
    if s != [] {
      PutGet(s[1..]);
      assert s == [s[0]] + s[1..];
    }
  }

  const I64_LIMIT := 0x8000_0000_0000_0000
  const U64_RANGE := 0x1_0000_0000_0000_0000

  /** int64 as its two's complement bits, and back. */
  function ToBits(v: int): nat {
    v % U64_RANGE
  }

  function FromBits(b: nat): int {
    if b < I64_LIMIT then b else b - U64_RANGE
  }

  predicate IsI64(v: int) {
    -I64_LIMIT <= v < I64_LIMIT
  }

  lemma TwosComplement(v: int, b: nat)
    ensures IsI64(v) ==> ToBits(v) < U64_RANGE && FromBits(ToBits(v)) == v
    ensures b < U64_RANGE ==> IsI64(FromBits(b)) && ToBits(FromBits(b)) == b
  {
  }

  lemma RangeValues()
    ensures Range(1) == 256 && Range(2) == 65536 && Range(4) == 0x1_0000_0000 && Range(8) == U64_RANGE
  {
    assert Range(3) == 256 * Range(2);
    assert Range(4) == 256 * Range(3);
    assert Range(5) == 256 * Range(4);
    assert Range(6) == 256 * Range(5);
    assert Range(7) == 256 * Range(6);
  }

  // ----- records of fixed-width fields --------------------------------------

  datatype Field = Field(value: nat, width: nat)

  function Encode(fs: seq<Field>): seq<byte> {
    if fs == [] then [] else Put(fs[0].value, fs[0].width) + Encode(fs[1..])
  }

  function Widths(fs: seq<Field>): (r: seq<nat>)
    ensures |r| == |fs|
  {
    if fs == [] then [] else [fs[0].width] + Widths(fs[1..])
  }

  function Values(fs: seq<Field>): (r: seq<nat>)
    ensures |r| == |fs|
  {
    if fs == [] then [] else [fs[0].value] + Values(fs[1..])
  }

  function Total(ws: seq<nat>): nat {
    if ws == [] then 0 else ws[0] + Total(ws[1..])
  }

  ghost predicate Fits(fs: seq<Field>) {
    fs == [] || (fs[0].value < Range(fs[0].width) && Fits(fs[1..]))
  }

  datatype Parsed = Parsed(values: seq<nat>, rest: seq<byte>)

  /** Reads one field per width from the front; fails on a short buffer. */
  function Decode(data: seq<byte>, ws: seq<nat>): (r: Option<Parsed>)
    ensures r.Some? <==> Total(ws) <= |data|
    ensures r.Some? ==> |r.value.values| == |ws| && r.value.rest == data[Total(ws)..]
    decreases ws
  {
    if ws == [] then Some(Parsed([], data))
    else if |data| < ws[0] then None
    else
      var tail := Decode(data[ws[0]..], ws[1..]);
      if tail.None? then None else Some(Parsed([Get(data[..ws[0]])] + tail.value.values, tail.value.rest))
  }

  lemma {:induction false} EncodeLength(fs: seq<Field>)
    ensures |Encode(fs)| == Total(Widths(fs))
  {
    if fs != [] {
      EncodeLength(fs[1..]);
      assert Widths(fs)[1..] == Widths(fs[1..]);
    }
  }

  /** What was encoded reads back, and nothing after it is touched. */
  lemma {:induction false} DecodeEncode(fs: seq<Field>, rest: seq<byte>)
    requires Fits(fs)
    ensures Decode(Encode(fs) + rest, Widths(fs)) == Some(Parsed(Values(fs), rest))
  {
    hide Put, Get;
    if fs == [] {
      assert Encode(fs) + rest == rest;
    } else {
      var data := Encode(fs) + rest;
      var w := fs[0].width;
      assert data[..w] == Put(fs[0].value, w);
      assert data[w..] == Encode(fs[1..]) + rest;
      assert Widths(fs)[1..] == Widths(fs[1..]);
      GetPut(fs[0].value, w);
      DecodeEncode(fs[1..], rest);
    }
  }

  function Zip(vs: seq<nat>, ws: seq<nat>): (r: seq<Field>)
    requires |vs| == |ws|
    ensures |r| == |vs|
  {
    if vs == [] then [] else [Field(vs[0], ws[0])] + Zip(vs[1..], ws[1..])
  }

  /** One field in front of the rest. */
  lemma DecodeCons(data: seq<byte>, ws: seq<nat>)
    requires ws != [] && Total(ws) <= |data|
    ensures ws[0] <= |data| && Total(ws[1..]) <= |data[ws[0]..]|
    ensures var t := Decode(data[ws[0]..], ws[1..]).value;
            Decode(data, ws).value == Parsed([Get(data[..ws[0]])] + t.values, t.rest)
  {
  }

  lemma EncodeCons(v: nat, w: nat, vs: seq<nat>, ws: seq<nat>)
    requires |vs| == |ws|
    ensures Encode(Zip([v] + vs, [w] + ws)) == Put(v, w) + Encode(Zip(vs, ws))
  {
    assert ([v] + vs)[1..] == vs && ([w] + ws)[1..] == ws;
    assert ([Field(v, w)] + Zip(vs, ws))[1..] == Zip(vs, ws);
  }

  lemma EncodeDecodeCons(data: seq<byte>, w: nat, ws: seq<nat>, t: Parsed)
    requires w <= |data| && |t.values| == |ws| && Encode(Zip(t.values, ws)) + t.rest == data[w..]
    ensures Encode(Zip([Get(data[..w])] + t.values, [w] + ws)) + t.rest == data
  {
    hide Put, Get, Encode, Zip;
    PutGet(data[..w]);
    EncodeCons(Get(data[..w]), w, t.values, ws);
    var tail := Encode(Zip(t.values, ws));
    assert data[..w] + tail + t.rest == data[..w] + (tail + t.rest);
  }

  /** Every byte string that parses is the encoding of what it parses to. */
  lemma {:induction false} EncodeDecode(data: seq<byte>, ws: seq<nat>)
    requires Total(ws) <= |data|
    ensures var p := Decode(data, ws).value; Encode(Zip(p.values, ws)) + p.rest == data
    decreases ws
  {
    if ws != [] {
      var w := ws[0];
      DecodeCons(data, ws);
      hide Decode, Encode, Zip, Total;
      EncodeDecode(data[w..], ws[1..]);
      EncodeDecodeCons(data, w, ws[1..], Decode(data[w..], ws[1..]).value);
      assert ws == [w] + ws[1..];
    }
  }

  // ----- the cursor ---------------------------------------------------------

  /** Bounds-checked reads that latch a failure flag. */
  class Reader {
    const data: seq<byte>
    var pos: nat
    var ok: bool

    ghost predicate Valid()
      reads this
    {
      pos <= |data|
    }

    constructor (data: seq<byte>)
      ensures Valid() && this.data == data && pos == 0 && ok
    {
      this.data := data;
      pos, ok := 0, true;
    }

    /** u8, u16, u32 and u64: little-endian assembly of w bytes. */
    method Read(w: nat) returns (v: nat)
      requires Valid()
      modifies this
      ensures Valid()
      ensures if old(ok) && w <= |data| - old(pos)
              then ok && pos == old(pos) + w && v == Get(data[old(pos)..pos])
              else !ok && pos == old(pos) && v == 0
    {
      if !ok || |data| - pos < w {
        ok := false;
        return 0;
      }
      v := 0;
      var i: nat := w;
      while i > 0
        invariant i <= w && v == Get(data[pos + i..pos + w])
      {
        i := i - 1;
        assert data[pos + i..pos + w][1..] == data[pos + i + 1..pos + w];
        v := data[pos + i] + 256 * v;
      }
      pos := pos + w;
    }

    /** Reads one field per width; succeeds exactly when the bytes are there. */
    method ReadFields(ws: seq<nat>) returns (vs: seq<nat>)
      requires Valid()
      modifies this
      ensures Valid() && |vs| == |ws|
      ensures var r := Decode(data[old(pos)..], ws);
              if old(ok) && r.Some? then ok && vs == r.value.values && data[pos..] == r.value.rest else !ok
    {
      hide Resumes, Decode;
      vs := [];
      var i := 0;
      ResumesStart(data[pos..], ws);
      assert ws[0..] == ws;
      while i < |ws|
        invariant Valid() && i <= |ws| && |vs| == i
        invariant ok ==> old(ok) && Resumes(data[old(pos)..], ws, vs, data[pos..], ws[i..])
        invariant !ok && old(ok) ==> Decode(data[old(pos)..], ws).None?
      {
        ghost var before := data[pos..];
        ghost var was := ok;
        var v := Read(ws[i]);
        if was {
          ResumesStep(data[old(pos)..], ws, vs, before, ws[i..]);
        }
        if ok {
          assert before[..ws[i]] == data[pos - ws[i]..pos] && before[ws[i]..] == data[pos..];
        }
        assert ws[i..][1..] == ws[i+1..];
        vs := vs + [v];
        i := i + 1;
      }
      if ok {
        assert ws[i..] == [];
        ResumesEnd(data[old(pos)..], ws, vs, data[pos..]);
      }
    }
  }

  /** Reading `left` more fields from `rest` completes the parse of the whole. */
  ghost predicate Resumes(data: seq<byte>, ws: seq<nat>, done: seq<nat>, rest: seq<byte>, left: seq<nat>) {
    match Decode(rest, left)
    case None => Decode(data, ws).None?
    case Some(t) => Decode(data, ws) == Some(Parsed(done + t.values, t.rest))
  }

  lemma ResumesStart(data: seq<byte>, ws: seq<nat>)
    ensures Resumes(data, ws, [], data, ws)
  {
    var d := Decode(data, ws);
    if d.Some? {
      assert [] + d.value.values == d.value.values;
    }
  }

  lemma ResumesStep(data: seq<byte>, ws: seq<nat>, done: seq<nat>, rest: seq<byte>, left: seq<nat>)
    requires Resumes(data, ws, done, rest, left) && left != []
    ensures if left[0] <= |rest| then Resumes(data, ws, done + [Get(rest[..left[0]])], rest[left[0]..], left[1..])
            else Decode(data, ws).None?
  {
    if left[0] <= |rest| {
      var t := Decode(rest[left[0]..], left[1..]);
      if t.Some? {
        var v := Get(rest[..left[0]]);
        assert done + ([v] + t.value.values) == done + [v] + t.value.values;
      }
    }
  }

  lemma ResumesEnd(data: seq<byte>, ws: seq<nat>, done: seq<nat>, rest: seq<byte>)
    requires Resumes(data, ws, done, rest, [])
    ensures Decode(data, ws) == Some(Parsed(done, rest))
  {
    assert Decode(rest, []) == Some(Parsed([], rest));
    assert done + [] == done;
  }
}
