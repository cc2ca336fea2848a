/** `_UpstreamReader` (connect_stream.py): ASGI receive events in, upstream messages out. */
module UpstreamReader {
  import opened Bytes
  import opened Envelope

  /** What `receive()` delivers. */
  datatype Event = Request(body: seq<Byte>, more: bool) | Disconnect | Other

  /** What one call of `next` gives back. `Waiting`: the call is still suspended in
      `receive()`, because no event is left. */
  datatype Result = Message(payload: seq<Byte>) | Eof | Waiting

  /** Decoder buffer, end flag, and the events still to be received. */
  datatype Reader = Reader(buf: seq<Byte>, eof: bool, inbox: seq<Event>)

  datatype Turn = Turn(reader: Reader, result: Result)

  /** Takes one event off the channel. */
  function Receive(r: Reader): Reader
    requires r.inbox != []
  {
    var rest := r.inbox[1..];
    match r.inbox[0]
    case Request(body, more) => Reader(r.buf + body, r.eof || !more, rest)
    case Disconnect => Reader(r.buf, true, rest)
    case Other => Reader(r.buf, r.eof, rest)
  }

  /** Bytes the reader holds or may still be given. */
  function Load(r: Reader): nat {
    |r.buf| + InboxLoad(r.inbox)
  }

  function InboxLoad(events: seq<Event>): nat {
    if events == [] then 0
    else (if events[0].Request? then |events[0].body| else 0) + InboxLoad(events[1..])
  }

  /** One call of `next`: decode first, then receive until a frame is complete. */
  function NextTurn(r: Reader): (t: Turn)
    ensures t.result.Message? ==> Load(t.reader) < Load(r)
    decreases |r.inbox|
  {
    match DecodeFront(r.buf)
    case Some(p) =>
      if IsEnd(p.frame) then Turn(Reader(p.rest, true, r.inbox), Eof)
      else Turn(Reader(p.rest, r.eof, r.inbox), Message(p.frame.payload))
    case None =>
      if r.eof then Turn(r, Eof)
      else if r.inbox == [] then Turn(r, Waiting)
      else NextTurn(Receive(r))
  }

  /** The reader object; `inbox` is the channel behind `receive`. */
  class UpstreamReader {
    const decoder: FrameDecoder
    var eof: bool
    var inbox: seq<Event>

    function View(): Reader
      reads this, decoder
    {
      Reader(decoder.buf, eof, inbox)
    }

    constructor (inbox: seq<Event>)
      ensures View() == Reader([], false, inbox) && fresh(decoder)
    {
      decoder := new FrameDecoder();
      eof, this.inbox := false, inbox;
    }

    method Next() returns (result: Result)
      modifies this, decoder
      ensures Turn(View(), result) == NextTurn(old(View()))
    {
      while true
        invariant NextTurn(View()) == NextTurn(old(View()))
        decreases |inbox|
      {
        ghost var before := View();
        var frame := decoder.NextFrame();
        if frame.Some? {
          if IsEnd(frame.value) {
            eof := true;
            return Eof;
          }
          return Message(frame.value.payload);
        }
        if eof {
          return Eof;
        }
        if inbox == [] {
          return Waiting;
        }
        var event := inbox[0];
        inbox := inbox[1..];
        match event {
          case Request(body, more) =>
            if body != [] {
              decoder.Feed(body);
            }
            if !more {
              eof := true;
            }
          case Disconnect =>
            eof := true;
          case Other =>
        }
        assert before.buf + [] == before.buf;
        assert View() == Receive(before);
      }
    }
  }

  // ---- batch reading of the whole request ----

  /** The request body: everything up to the last body chunk or the disconnect. */
  function StreamBytes(events: seq<Event>): seq<Byte> {
    if events == [] then []
    else match events[0]
      case Request(body, more) => body + (if more then StreamBytes(events[1..]) else [])
      case Disconnect => []
      case Other => StreamBytes(events[1..])
  }

  predicate HasEnd(events: seq<Event>) {
    events != [] &&
      match events[0]
      case Request(_, more) => !more || HasEnd(events[1..])
      case Disconnect => true
      case Other => HasEnd(events[1..])
  }

  /** Payloads of the frames before the first end-of-stream frame. */
  function MessagesOf(fs: seq<Frame>): seq<seq<Byte>> {
    if fs == [] || IsEnd(fs[0]) then [] else [fs[0].payload] + MessagesOf(fs[1..])
  }

  predicate HasEndFrame(fs: seq<Frame>) {
    fs != [] && (IsEnd(fs[0]) || HasEndFrame(fs[1..]))
  }

  /** Calling `next` until it gives no message. */
  datatype Drained = Drained(messages: seq<seq<Byte>>, last: Result)

  function Drain(r: Reader): Drained
    decreases Load(r)
  {
    var t := NextTurn(r);
    if t.result.Message? then
      var rest := Drain(t.reader);
      Drained([t.result.payload] + rest.messages, rest.last)
    else Drained([], t.result)
  }

  // ---- refinement ----

  /** Bytes between here and the end of the request. */
  function Ahead(r: Reader): seq<Byte> {
    r.buf + (if r.eof then [] else StreamBytes(r.inbox))
  }

  predicate Closing(r: Reader) { r.eof || HasEnd(r.inbox) }

  lemma ReceiveKeepsAhead(r: Reader)
    requires r.inbox != [] && !r.eof
    ensures Ahead(Receive(r)) == Ahead(r) && Closing(Receive(r)) == Closing(r)
  {
    match r.inbox[0]
    case Request(body, more) =>
      assert (r.buf + body) + (if more then StreamBytes(r.inbox[1..]) else []) ==
        r.buf + (body + (if more then StreamBytes(r.inbox[1..]) else []));
    case Disconnect =>
    case Other =>
  }

  /** One call gives the next frame of the batch reading, and nothing else changes. */
  lemma {:induction false} NextReadsBatch(r: Reader)
    ensures var fs, t := DecodeAll(Ahead(r)).frames, NextTurn(r);
      if fs == [] then t.result == if Closing(r) then Eof else Waiting
      else if IsEnd(fs[0]) then t.result == Eof
      else
        && t.result == Message(fs[0].payload)
        && DecodeAll(Ahead(t.reader)).frames == fs[1..]
        && Closing(t.reader) == Closing(r)
    decreases |r.inbox|
  {
    hide DecodeFront, StreamBytes;
    var more := if r.eof then [] else StreamBytes(r.inbox);
    if DecodeFront(r.buf).Some? {
      DecodeExtends(r.buf, more);
    } else if r.eof {
      assert Ahead(r) == r.buf;
    } else if r.inbox == [] {
      NoEvents(r);
    } else {
      ReceiveKeepsAhead(r);
      NextReadsBatch(Receive(r));
    }
  }

  lemma NoEvents(r: Reader)
    requires r.inbox == [] && !r.eof
    ensures Ahead(r) == r.buf
  {
  }

  lemma {:induction false} DrainReadsBatch(r: Reader)
    ensures var fs := DecodeAll(Ahead(r)).frames;
      Drain(r) == Drained(MessagesOf(fs), if HasEndFrame(fs) || Closing(r) then Eof else Waiting)
    decreases Load(r)
  {
    hide NextTurn, DecodeAll, Ahead, Closing;
    NextReadsBatch(r);
    var fs := DecodeAll(Ahead(r)).frames;
    if fs != [] && !IsEnd(fs[0]) {
      DrainReadsBatch(NextTurn(r).reader);
    }
  }

  /** The reader refines batch parsing: for any events, cut and spaced as the server likes,
      the messages before the first None are the envelopes of the concatenated bodies before
      the first end-of-stream envelope; the call that gives none ends the stream exactly
      when an end-of-stream envelope, a last body chunk or a disconnect has arrived. */
  lemma ReaderRefinesBatch(events: seq<Event>)
    ensures var fs := DecodeAll(StreamBytes(events)).frames;
      Drain(Reader([], false, events)) ==
        Drained(MessagesOf(fs), if HasEndFrame(fs) || HasEnd(events) then Eof else Waiting)
  {
    hide DecodeAll, Drain;
    var r := Reader([], false, events);
    assert Ahead(r) == StreamBytes(events);
    DrainReadsBatch(r);
  }

  /** With the round trip: what a client encodes is what the handler is given, for any cut of
      the encodings into body chunks. */
  lemma ReaderInvertsClient(payloads: seq<Frame>, events: seq<Event>)
    requires AllEncodable(payloads) && StreamBytes(events) == EncodeAll(payloads)
    ensures Drain(Reader([], false, events)).messages == MessagesOf(payloads)
  {
    hide DecodeAll, Drain, DecodeFront, EncodeAll, StreamBytes, AllEncodable;
    NoFrontInEmpty();
    DecodeAllUnique(payloads, []);
    assert EncodeAll(payloads) + [] == EncodeAll(payloads);
    ReaderRefinesBatch(events);
  }

  lemma {:induction false} MessagesOfData(fs: seq<Frame>)
    requires forall k :: 0 <= k < |fs| ==> !IsEnd(fs[k])
    ensures |MessagesOf(fs)| == |fs|
    ensures forall k :: 0 <= k < |fs| ==> MessagesOf(fs)[k] == fs[k].payload
  {
    if fs != [] { MessagesOfData(fs[1..]); }
  }

  /** Only the end bit of the flags matters: data frames are all delivered, one with the
      compression bit like any other. */
  lemma DataFramesAreDelivered(fs: seq<Frame>, events: seq<Event>)
    requires AllEncodable(fs) && StreamBytes(events) == EncodeAll(fs)
    requires forall k :: 0 <= k < |fs| ==> fs[k].flags / FLAG_END_STREAM % 2 == 0
    ensures var messages := Drain(Reader([], false, events)).messages;
      |messages| == |fs| && forall k :: 0 <= k < |fs| ==> messages[k] == fs[k].payload
  {
    hide Drain, EncodeAll, StreamBytes, AllEncodable, MessagesOf;
    ReaderInvertsClient(fs, events);
    MessagesOfData(fs);
  }

  /** Once a call has given none, the stream stays ended: the end is noted, and no later call
      takes another event off the channel or waits for one. */
  lemma {:induction false} EndIsNoted(r: Reader)
    ensures NextTurn(r).result == Eof ==> NextTurn(r).reader.eof
    ensures r.eof ==> NextTurn(r).reader.inbox == r.inbox && NextTurn(r).reader.eof && NextTurn(r).result != Waiting
    decreases |r.inbox|
  {
    hide DecodeFront;
    if DecodeFront(r.buf).None? && !r.eof && r.inbox != [] { EndIsNoted(Receive(r)); }
  }

  // ---- the end of the stream, in figures ----

  function Payloads(fs: seq<Frame>): seq<seq<Byte>> {
    seq(|fs|, k requires 0 <= k < |fs| => fs[k].payload)
  }

  /** A body cut into chunks, all but nothing announced as the last one. */
  function Requests(chunks: seq<seq<Byte>>): seq<Event> {
    seq(|chunks|, k requires 0 <= k < |chunks| => Request(chunks[k], true))
  }

  lemma {:induction false} StreamOfRequests(chunks: seq<seq<Byte>>, events: seq<Event>)
    ensures StreamBytes(Requests(chunks) + events) == Flatten(chunks) + StreamBytes(events)
    ensures HasEnd(Requests(chunks) + events) == HasEnd(events)
    decreases |chunks|
  {
    if chunks == [] {
      assert Requests(chunks) + events == events;
    } else {
      var init, c := chunks[..|chunks| - 1], chunks[|chunks| - 1];
      assert Requests(chunks) + events == Requests(init) + ([Request(c, true)] + events);
      StreamOfRequests(init, [Request(c, true)] + events);
      assert ([Request(c, true)] + events)[1..] == events;
    }
  }

  lemma {:induction false} MessagesUpToEnd(fs: seq<Frame>, last: Frame, behind: seq<Frame>)
    requires forall k :: 0 <= k < |fs| ==> !IsEnd(fs[k])
    requires IsEnd(last)
    ensures MessagesOf(fs + [last] + behind) == Payloads(fs) && HasEndFrame(fs + [last] + behind)
  {
    var all := fs + [last] + behind;
    if fs == [] {
      assert all[0] == last;
    } else {
      assert all[0] == fs[0] && all[1..] == fs[1..] + [last] + behind;
      MessagesUpToEnd(fs[1..], last, behind);
      assert Payloads(fs) == [fs[0].payload] + Payloads(fs[1..]);
    }
  }

  /** Data frames (flag bit 2 clear), then a frame with flag bit 2 set - whatever its other
      flags and its payload - then any bytes, in any chunks, with anything to follow: the
      handler is given exactly the payloads of the data frames, and then the end. */
  lemma EndFrameEndsStream(fs: seq<Frame>, flags: Byte, payload: seq<Byte>, behind: seq<Byte>,
                           chunks: seq<seq<Byte>>, events: seq<Event>)
    requires AllEncodable(fs) && |payload| < 0x1_0000_0000
    requires forall k :: 0 <= k < |fs| ==> fs[k].flags / 2 % 2 == 0
    requires flags / 2 % 2 == 1
    requires Flatten(chunks) == EncodeAll(fs) + Encoding(Frame(flags, payload)) + behind
    ensures Drain(Reader([], false, Requests(chunks) + events)) == Drained(Payloads(fs), Eof)
  {
    hide DecodeAll, Drain, DecodeFront, EncodeAll, StreamBytes, AllEncodable, Encoding, MessagesOf, HasEndFrame, HasEnd;
    var last, rest := Frame(flags, payload), behind + StreamBytes(events);
    StreamOfRequests(chunks, events);
    var sent := fs + [last];
    EncodeAllSnoc(fs, last);
    AllEncodableSnoc(fs, last);
    assert StreamBytes(Requests(chunks) + events) == EncodeAll(sent) + rest;
    DecodeAllAppend(sent, rest);
    MessagesUpToEnd(fs, last, DecodeAll(rest).frames);
    ReaderRefinesBatch(Requests(chunks) + events);
  }

  lemma AllEncodableSnoc(fs: seq<Frame>, last: Frame)
    requires AllEncodable(fs) && Encodable(last)
    ensures AllEncodable(fs + [last])
  {
  }

  /** Data frames, and the body ends - with its last chunk, or by a disconnect: the handler is
      given the payloads, drops an envelope that is still incomplete, and then the end. */
  lemma BodyEndEndsStream(fs: seq<Frame>, part: seq<Byte>, chunks: seq<seq<Byte>>, ending: Event, events: seq<Event>)
    requires AllEncodable(fs) && DecodeFront(part).None?
    requires forall k :: 0 <= k < |fs| ==> fs[k].flags / 2 % 2 == 0
    requires ending == Disconnect || ending == Request([], false)
    requires Flatten(chunks) == EncodeAll(fs) + part
    ensures Drain(Reader([], false, Requests(chunks) + [ending] + events)) == Drained(Payloads(fs), Eof)
  {
    hide DecodeAll, Drain, DecodeFront, EncodeAll, AllEncodable, MessagesOf, HasEndFrame;
    var all := Requests(chunks) + [ending] + events;
    assert all == Requests(chunks) + ([ending] + events);
    StreamOfRequests(chunks, [ending] + events);
    assert StreamBytes([ending] + events) == [] && HasEnd([ending] + events);
    assert StreamBytes(all) == EncodeAll(fs) + part;
    DecodeAllUnique(fs, part);
    MessagesOfData(fs);
    assert MessagesOf(fs) == Payloads(fs);
    ReaderRefinesBatch(all);
  }
}
