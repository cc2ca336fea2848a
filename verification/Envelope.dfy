/** Connect envelopes (envelope.py): one flag byte, a big-endian 32-bit length, the payload. */
module Envelope {
  import opened Bytes
  import opened Options

  const PREFIX_LEN := 5
  const MAX_PAYLOAD := 0x1_0000_0000
  const FLAG_END_STREAM := 2

  datatype Frame = Frame(flags: Byte, payload: seq<Byte>)

  /** `flags & FLAG_END_STREAM` */
  predicate IsEnd(f: Frame) { f.flags / FLAG_END_STREAM % 2 == 1 }

  // ---- the length prefix ----

  /** The low 32 bits of `n`. */
  function BigEndian(n: nat): (bs: seq<Byte>)
    ensures |bs| == 4
  {
    var high := n / 0x100;
    var higher := high / 0x100;
    [higher / 0x100 % 0x100, higher % 0x100, high % 0x100, n % 0x100]
  }

  function FromBigEndian(bs: seq<Byte>): (n: nat)
    requires |bs| == 4
  {
    (((bs[0] as int) * 0x100 + bs[1] as int) * 0x100 + bs[2] as int) * 0x100 + bs[3] as int
  }

  lemma BigEndianRoundTrip(n: nat)
    requires n < MAX_PAYLOAD
    ensures FromBigEndian(BigEndian(n)) == n
  {
    var bs := BigEndian(n);
    assert bs[0] as int * 0x100 + bs[1] as int == n / 0x100 / 0x100;
    assert (bs[0] as int * 0x100 + bs[1] as int) * 0x100 + bs[2] as int == n / 0x100;
  }

  /** The most significant byte comes first. */
  lemma BigEndianIs(n: nat)
    requires n < MAX_PAYLOAD
    ensures var bs := BigEndian(n);
      bs[0] as int * 0x100_0000 + bs[1] as int * 0x1_0000 + bs[2] as int * 0x100 + bs[3] as int == n
  {
    BigEndianRoundTrip(n);
  }

  lemma BigEndianInverse(bs: seq<Byte>)
    requires |bs| == 4
    ensures FromBigEndian(bs) < MAX_PAYLOAD && BigEndian(FromBigEndian(bs)) == bs
  {
    var n := FromBigEndian(bs);
    var higher := bs[0] as int * 0x100 + bs[1] as int;
    var high := higher * 0x100 + bs[2] as int;
    assert n / 0x100 == high && n % 0x100 == bs[3] as int;
    assert high / 0x100 == higher && high % 0x100 == bs[2] as int;
    assert higher / 0x100 == bs[0] as int && higher % 0x100 == bs[1] as int;
  }

  // ---- encoding ----

  predicate Encodable(f: Frame) { |f.payload| < MAX_PAYLOAD }

  /** The envelope of a frame; only an encodable one is ever produced, see EncodeFrame. */
  function Encoding(f: Frame): (bs: seq<Byte>)
    ensures |bs| == PREFIX_LEN + |f.payload|
  {
    [f.flags] + BigEndian(|f.payload|) + f.payload
  }

  /** `encode_frame`: the flags are cut to one byte; a payload whose length does not fit
      four bytes makes `struct.pack` raise. */
  function EncodeFrame(payload: seq<Byte>, flags: int): Option<seq<Byte>> {
    if |payload| < MAX_PAYLOAD then Some(Encoding(Frame(flags % 256, payload))) else None
  }

  predicate AllEncodable(fs: seq<Frame>) { forall k :: 0 <= k < |fs| ==> Encodable(fs[k]) }

  function EncodeAll(fs: seq<Frame>): seq<Byte> {
    if fs == [] then [] else EncodeAll(fs[..|fs| - 1]) + Encoding(fs[|fs| - 1])
  }

  // ---- decoding one envelope from the front of a buffer ----

  datatype Parsed = Parsed(frame: Frame, rest: seq<Byte>)

  /** The next envelope of a buffer, None while it is incomplete. */
  function DecodeFront(buf: seq<Byte>): Option<Parsed> {
    if |buf| < PREFIX_LEN then None
    else
      var total := PREFIX_LEN + FromBigEndian(buf[1..PREFIX_LEN]);
      if |buf| < total then None
      else Some(Parsed(Frame(buf[0], buf[PREFIX_LEN..total]), buf[total..]))
  }

  /** Decoding undoes encoding, whatever follows. */
  lemma DecodeEncoded(f: Frame, rest: seq<Byte>)
    requires Encodable(f)
    ensures DecodeFront(Encoding(f) + rest) == Some(Parsed(f, rest))
  {
    hide BigEndian, FromBigEndian;
    var buf := Encoding(f) + rest;
    assert buf[1..PREFIX_LEN] == BigEndian(|f.payload|);
    BigEndianRoundTrip(|f.payload|);
    var total := PREFIX_LEN + |f.payload|;
    assert buf[PREFIX_LEN..total] == f.payload;
    assert buf[total..] == rest;
  }

  /** What is on the wire: the flags, the payload's length with the most significant byte
      first, the payload. */
  lemma EnvelopeLayout(f: Frame)
    requires Encodable(f)
    ensures var e := Encoding(f);
      && |e| == 5 + |f.payload| && e[0] == f.flags && e[5..] == f.payload
      && e[1] as int * 0x100_0000 + e[2] as int * 0x1_0000 + e[3] as int * 0x100 + e[4] as int == |f.payload|
  {
    hide BigEndian;
    BigEndianIs(|f.payload|);
    assert Encoding(f)[1..5] == BigEndian(|f.payload|);
    assert forall k :: 0 <= k < 4 ==> Encoding(f)[k + 1] == BigEndian(|f.payload|)[k];
  }

  /** What `encode_frame` sends is read back with its payload and the low byte of its flags;
      it raises exactly when the payload is too long. */
  lemma EncodeFrameReadBack(payload: seq<Byte>, flags: int, rest: seq<Byte>)
    ensures EncodeFrame(payload, flags).Some? <==> |payload| < MAX_PAYLOAD
    ensures EncodeFrame(payload, flags).Some? ==>
      DecodeFront(EncodeFrame(payload, flags).value + rest) == Some(Parsed(Frame(flags % 256, payload), rest))
  {
    hide Encoding, DecodeFront;
    if |payload| < MAX_PAYLOAD { DecodeEncoded(Frame(flags % 256, payload), rest); }
  }

  /** Encoding undoes decoding: no byte of the buffer is invented or dropped. */
  lemma EncodeDecoded(buf: seq<Byte>)
    requires DecodeFront(buf).Some?
    ensures var p := DecodeFront(buf).value;
      Encodable(p.frame) && Encoding(p.frame) + p.rest == buf
  {
    hide BigEndian, FromBigEndian;
    var p := DecodeFront(buf).value;
    var total := PREFIX_LEN + |p.frame.payload|;
    BigEndianInverse(buf[1..PREFIX_LEN]);
    assert buf == [buf[0]] + buf[1..PREFIX_LEN] + buf[PREFIX_LEN..total] + buf[total..];
  }

  /** An envelope stays the same envelope when more input arrives. */
  lemma DecodeExtends(buf: seq<Byte>, more: seq<Byte>)
    requires DecodeFront(buf).Some?
    ensures DecodeFront(buf + more) == Some(Parsed(DecodeFront(buf).value.frame, DecodeFront(buf).value.rest + more))
  {
    hide DecodeFront, Encoding;
    EncodeDecoded(buf);
    var p := DecodeFront(buf).value;
    assert buf + more == Encoding(p.frame) + (p.rest + more);
    DecodeEncoded(p.frame, p.rest + more);
  }

  // ---- the decoder object ----

  /** `FrameDecoder`: a byte buffer fed at the back and consumed at the front. */
  class FrameDecoder {
    var buf: seq<Byte>

    constructor ()
      ensures buf == []
    {
      buf := [];
    }

    method Feed(data: seq<Byte>)
      modifies this
      ensures buf == old(buf) + data
    {
      if data != [] {
        buf := buf + data;
      }
    }

    /** Takes one whole envelope off the front, or changes nothing. */
    method NextFrame() returns (frame: Option<Frame>)
      modifies this
      ensures frame.None? ==> buf == old(buf) && DecodeFront(buf).None?
      ensures frame.Some? ==>
        Encodable(frame.value) && old(buf) == Encoding(frame.value) + buf
      ensures frame == (match DecodeFront(old(buf)) case None => None case Some(p) => Some(p.frame))
    {
      if |buf| < PREFIX_LEN {
        return None;
      }
      var flags, length := buf[0], FromBigEndian(buf[1..PREFIX_LEN]);
      var total := PREFIX_LEN + length;
      if |buf| < total {
        return None;
      }
      EncodeDecoded(buf);
      frame := Some(Frame(flags, buf[PREFIX_LEN..total]));
      buf := buf[total..];
    }
  }

  // ---- the whole stream at once ----

  /** All complete envelopes of a byte string, and the bytes left over. */
  datatype Batch = Batch(frames: seq<Frame>, residue: seq<Byte>)

  function DecodeAll(bytes: seq<Byte>): Batch
    decreases |bytes|
  {
    match DecodeFront(bytes)
    case None => Batch([], bytes)
    case Some(p) =>
      EncodeDecoded(bytes);
      var tail := DecodeAll(p.rest);
      Batch([p.frame] + tail.frames, tail.residue)
  }

  lemma EncodeAllCons(f: Frame, fs: seq<Frame>)
    ensures EncodeAll([f] + fs) == Encoding(f) + EncodeAll(fs)
  {
    hide Encoding;
    EncodeAllAppend([f], fs);
    assert [f][..0] == [];
    assert EncodeAll([f]) == [] + Encoding(f);
  }

  lemma EncodeAllSnoc(fs: seq<Frame>, f: Frame)
    ensures EncodeAll(fs + [f]) == EncodeAll(fs) + Encoding(f)
  {
    hide Encoding;
    assert (fs + [f])[..|fs|] == fs;
  }

  /** Any byte string is the encoding of its frames, followed by no complete envelope. */
  lemma {:induction false} DecodeAllInverse(bytes: seq<Byte>)
    ensures var b := DecodeAll(bytes);
      && AllEncodable(b.frames)
      && EncodeAll(b.frames) + b.residue == bytes
      && DecodeFront(b.residue).None?
    decreases |bytes|
  {
    hide DecodeFront, Encoding, EncodeAll;
    EncodeAllNil();
    if DecodeFront(bytes).Some? {
      EncodeDecoded(bytes);
      var p := DecodeFront(bytes).value;
      DecodeAllInverse(p.rest);
      var b := DecodeAll(p.rest);
      EncodeAllCons(p.frame, b.frames);
      assert Encoding(p.frame) + EncodeAll(b.frames) + b.residue
          == Encoding(p.frame) + (EncodeAll(b.frames) + b.residue);
    }
  }

  /** And it is the only such reading: frames and residue are determined by the bytes. */
  lemma {:induction false} DecodeAllUnique(fs: seq<Frame>, residue: seq<Byte>)
    requires AllEncodable(fs) && DecodeFront(residue).None?
    ensures DecodeAll(EncodeAll(fs) + residue) == Batch(fs, residue)
    decreases |fs|
  {
    hide DecodeFront, Encoding;
    if fs == [] {
      assert EncodeAll(fs) + residue == residue;
    } else {
      var f, tail := fs[0], fs[1..];
      assert fs == [f] + tail;
      EncodeAllCons(f, tail);
      assert EncodeAll(fs) + residue == Encoding(f) + (EncodeAll(tail) + residue);
      DecodeEncoded(f, EncodeAll(tail) + residue);
      DecodeAllUnique(tail, residue);
    }
  }

  // ---- every interleaving of feed and next_frame ----

  datatype Op = Feed(data: seq<Byte>) | Next

  /** The decoder's buffer, what it has been fed, what it has returned, and whether the last
      `next_frame` found nothing and nothing was fed since. */
  datatype Session = Session(buf: seq<Byte>, fed: seq<Byte>, frames: seq<Frame>, idle: bool)

  const FRESH := Session([], [], [], false)

  function Apply(s: Session, op: Op): Session {
    match op
    case Feed(data) => Session(s.buf + data, s.fed + data, s.frames, false)
    case Next =>
      match DecodeFront(s.buf)
      case None => s.(idle := true)
      case Some(p) => Session(p.rest, s.fed, s.frames + [p.frame], false)
  }

  function RunOps(ops: seq<Op>): Session {
    if ops == [] then FRESH else Apply(RunOps(ops[..|ops| - 1]), ops[|ops| - 1])
  }

  /** The frames returned and the buffer together are exactly the bytes fed. */
  ghost predicate KeepsBytes(s: Session) {
    && AllEncodable(s.frames)
    && EncodeAll(s.frames) + s.buf == s.fed
    && (s.idle ==> DecodeFront(s.buf).None?)
  }

  lemma ApplyKeepsBytes(s: Session, op: Op)
    requires KeepsBytes(s)
    ensures KeepsBytes(Apply(s, op))
  {
    hide DecodeFront, Encoding, EncodeAll;
    match op
    case Feed(data) =>
      assert EncodeAll(s.frames) + (s.buf + data) == (EncodeAll(s.frames) + s.buf) + data;
    case Next =>
      if DecodeFront(s.buf).Some? {
        EncodeDecoded(s.buf);
        var p := DecodeFront(s.buf).value;
        EncodeAllSnoc(s.frames, p.frame);
        assert EncodeAll(s.frames) + (Encoding(p.frame) + p.rest) == (EncodeAll(s.frames) + Encoding(p.frame)) + p.rest;
      }
  }

  lemma {:induction false} RunKeepsBytes(ops: seq<Op>)
    ensures KeepsBytes(RunOps(ops))
  {
    hide KeepsBytes, Apply;
    if ops == [] {
      FreshKeepsBytes();
    } else {
      RunKeepsBytes(ops[..|ops| - 1]);
      ApplyKeepsBytes(RunOps(ops[..|ops| - 1]), ops[|ops| - 1]);
    }
  }

  lemma FreshKeepsBytes()
    ensures KeepsBytes(FRESH)
  {
  }

  lemma {:induction false} DecodeAllAppend(fs: seq<Frame>, bytes: seq<Byte>)
    requires AllEncodable(fs)
    ensures DecodeAll(EncodeAll(fs) + bytes) == Batch(fs + DecodeAll(bytes).frames, DecodeAll(bytes).residue)
    decreases |fs|
  {
    hide DecodeFront, Encoding;
    if fs == [] {
      assert EncodeAll(fs) + bytes == bytes;
    } else {
      var f, tail := fs[0], fs[1..];
      assert fs == [f] + tail;
      EncodeAllCons(f, tail);
      assert EncodeAll(fs) + bytes == Encoding(f) + (EncodeAll(tail) + bytes);
      DecodeEncoded(f, EncodeAll(tail) + bytes);
      DecodeAllAppend(tail, bytes);
      assert [f] + (tail + DecodeAll(bytes).frames) == fs + DecodeAll(bytes).frames;
    }
  }

  /** Chunk independence, for arbitrary bytes: the frames returned so far are always a prefix
      of the batch reading, and an idle decoder has returned them all and holds the residue. */
  lemma AnyInterleavingReadsTheBatch(ops: seq<Op>)
    ensures var s, b := RunOps(ops), DecodeAll(RunOps(ops).fed);
      && s.frames <= b.frames
      && (s.idle ==> s.frames == b.frames && s.buf == b.residue)
  {
    hide DecodeFront, Encoding, RunOps, EncodeAll;
    RunKeepsBytes(ops);
    var s := RunOps(ops);
    DecodeAllAppend(s.frames, s.buf);
  }

  lemma {:induction false} EncodeAllAppend(a: seq<Frame>, b: seq<Frame>)
    ensures EncodeAll(a + b) == EncodeAll(a) + EncodeAll(b)
    decreases |b|
  {
    hide Encoding, EncodeAll;
    EncodeAllNil();
    if b == [] {
      assert a + b == a;
    } else {
      var b', f := b[..|b| - 1], b[|b| - 1];
      EncodeAllAppend(a, b');
      assert a + b == (a + b') + [f] && b == b' + [f];
      EncodeAllSnoc(a + b', f);
      EncodeAllSnoc(b', f);
      assert EncodeAll(a) + EncodeAll(b') + Encoding(f) == EncodeAll(a) + (EncodeAll(b') + Encoding(f));
    }
  }

  /** The streaming round trip. When the bytes fed are any prefix of the encodings of `fs`,
      in any chunks and with `next_frame` called at any moments, the frames returned are
      always the first ones of `fs`; an idle decoder holds a strict prefix of the next
      encoding (nothing, after the last); once all bytes are fed it has returned all. */
  lemma {:induction false} StreamingRoundTrip(fs: seq<Frame>, ops: seq<Op>)
    requires AllEncodable(fs) && RunOps(ops).fed <= EncodeAll(fs)
    ensures var s := RunOps(ops);
      && s.frames <= fs
      && (s.idle && |s.frames| == |fs| ==> s.buf == [])
      && (s.idle && |s.frames| < |fs| ==> s.buf < Encoding(fs[|s.frames|]))
      && (s.idle && s.fed == EncodeAll(fs) ==> s.frames == fs)
  {
    hide DecodeFront, Encoding, RunOps, EncodeAll, AllEncodable;
    var s := RunOps(ops);
    var rest := EncodeAll(fs)[|s.fed|..];
    assert EncodeAll(fs) == s.fed + rest;
    RunKeepsBytes(ops);
    assert s.fed + rest == EncodeAll(s.frames) + (s.buf + rest);
    ReadingIsPrefix(fs, s.frames, s.buf + rest);
    var k := |s.frames|;
    if s.idle {
      if k < |fs| {
        assert fs[k..] == [fs[k]] + fs[k + 1..];
        EncodeAllCons(fs[k], fs[k + 1..]);
        FrameIsEncodable(fs, k);
        PrefixBeforeEnvelope(s.buf, rest, fs[k], EncodeAll(fs[k + 1..]));
      } else {
        EncodeAllNil();
      }
    }
  }

  lemma FrameIsEncodable(fs: seq<Frame>, k: nat)
    requires AllEncodable(fs) && k < |fs|
    ensures Encodable(fs[k])
  {
  }

  lemma EncodeAllNil()
    ensures EncodeAll([]) == []
  {
  }

  /** Frames whose encoding starts the encoding of `fs` are the first frames of `fs`. */
  lemma ReadingIsPrefix(fs: seq<Frame>, frames: seq<Frame>, tail: seq<Byte>)
    requires AllEncodable(fs) && AllEncodable(frames) && EncodeAll(fs) == EncodeAll(frames) + tail
    ensures frames <= fs && tail == EncodeAll(fs[|frames|..])
  {
    hide DecodeFront, Encoding, EncodeAll, DecodeAll, AllEncodable;
    NoFrontInEmpty();
    DecodeAllUnique(fs, []);
    assert EncodeAll(fs) + [] == EncodeAll(fs);
    DecodeAllAppend(frames, tail);
    var more := DecodeAll(tail).frames;
    assert fs == frames + more;
    EncodeAllAppend(frames, more);
    CancelPrefix(EncodeAll(frames), tail, EncodeAll(more));
    assert fs[|frames|..] == more;
  }

  lemma CancelPrefix(a: seq<Byte>, x: seq<Byte>, y: seq<Byte>)
    requires a + x == a + y
    ensures x == y
  {
    assert (a + x)[|a|..] == x && (a + y)[|a|..] == y;
  }

  lemma NoFrontInEmpty()
    ensures DecodeFront([]).None?
  {
  }

  lemma PrefixBeforeEnvelope(buf: seq<Byte>, rest: seq<Byte>, f: Frame, tail: seq<Byte>)
    requires Encodable(f) && buf + rest == Encoding(f) + tail && DecodeFront(buf).None?
    ensures buf < Encoding(f)
  {
    hide DecodeFront, Encoding;
    var e := Encoding(f);
    if |buf| >= |e| {
      assert buf[..|e|] == (buf + rest)[..|e|] == e;
      assert buf == e + buf[|e|..];
      DecodeEncoded(f, buf[|e|..]);
    } else {
      assert buf == (buf + rest)[..|buf|] == e[..|buf|];
    }
  }
}
