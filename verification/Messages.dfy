/**
 Reassembly of fragmented text messages with control frames in between, its state kept across calls
 (wxcd-codex/src/lib.rs, `read_websocket_frame` and `read_websocket`; section 5.4 of RFC 6455).
 */
module Messages {
  import opened Wrappers
  import opened Bytes
  import opened Frames

  datatype Event = Text(payload: bytes) | Ping(payload: bytes) | Pong(payload: bytes) | Close | Other | Eof | Failed

  const CONTINUATION: bv8 := 0x0
  const TEXT: bv8 := 0x1
  const CLOSE: bv8 := 0x8
  const PING: bv8 := 0x9
  const PONG: bv8 := 0xA

  /** What one frame does to the partial message: carry on with it, or hand out an event. */
  datatype Step = Continue(partial: Option<bytes>) | Emit(event: Event, partial: Option<bytes>)

  function OnFrame(frame: RawFrame, partial: Option<bytes>): Step {
    if frame.opcode == TEXT then
      if partial.Some? then Emit(Failed, partial)
      else if frame.fin then Emit(Text(frame.payload), None)
      else Continue(Some(frame.payload))
    else if frame.opcode == CONTINUATION then
      if partial.None? || |partial.value| + |frame.payload| > MAX_WEBSOCKET_FRAME_BYTES then Emit(Failed, partial)
      else if frame.fin then Emit(Text(partial.value + frame.payload), None)
      else Continue(Some(partial.value + frame.payload))
    else if frame.opcode == CLOSE then Emit(Close, partial)
    else if frame.opcode == PING then Emit(Ping(frame.payload), partial)
    else if frame.opcode == PONG then Emit(Pong(frame.payload), partial)
    else if frame.fin then Emit(Other, partial)
    else Emit(Failed, partial)
  }

  /** What the reader hands out for the rest of its life: up to a close, the end of the stream or a failure. */
  function ReadAll(stream: bytes, partial: Option<bytes>): seq<Event>
    decreases |stream|
  {
    match Decode(stream)
    case EndOfStream => [Eof]
    case Malformed => [Failed]
    case Decoded(frame, rest) =>
      DecodedIsShorter(stream);
      match OnFrame(frame, partial)
      case Continue(p) => ReadAll(rest, p)
      case Emit(event, p) => if event.Close? || event.Failed? then [event] else [event] + ReadAll(rest, p)
  }

  lemma DecodedIsShorter(stream: bytes)
    ensures Decode(stream).Decoded? ==> |Decode(stream).rest| < |stream|
  {
  }

  /** What ends the reading, whatever follows: a close frame, a text within a text, a continuation of nothing. */
  lemma EndsReading(f: WireFrame, rest: bytes, partial: Option<bytes>)
    requires Legal(f)
    ensures f.opcode == 0x8 ==> ReadAll(Encode(f) + rest, partial) == [Close]
    ensures f.opcode == 0x1 && partial.Some? ==> ReadAll(Encode(f) + rest, partial) == [Failed]
    ensures f.opcode == 0x0 && partial.None? ==> ReadAll(Encode(f) + rest, partial) == [Failed]
    ensures f.opcode !in {0x0, 0x1, 0x8, 0x9, 0xA} && !f.fin ==> ReadAll(Encode(f) + rest, partial) == [Failed]
  {
    DecodeUndoesEncode(f, rest);
  }

  /** What does not: control frames and whole frames of other kinds are handed out and leave the text as it was. */
  lemma GoesOnReading(f: WireFrame, rest: bytes, partial: Option<bytes>)
    requires Legal(f)
    ensures f.opcode == 0x9 ==> ReadAll(Encode(f) + rest, partial) == [Ping(f.payload)] + ReadAll(rest, partial)
    ensures f.opcode == 0xA ==> ReadAll(Encode(f) + rest, partial) == [Pong(f.payload)] + ReadAll(rest, partial)
    ensures f.opcode !in {0x0, 0x1, 0x8, 0x9, 0xA} && f.fin ==>
              ReadAll(Encode(f) + rest, partial) == [Other] + ReadAll(rest, partial)
    ensures ReadAll([], partial) == [Eof]
  {
    DecodeUndoesEncode(f, rest);
  }

  // ---- A text message in fragments ----

  predicate IsInterleaved(f: WireFrame) {
    f.opcode == PING || f.opcode == PONG
  }

  function EventOf(f: WireFrame): Event {
    if f.opcode == PING then Ping(f.payload) else Pong(f.payload)
  }

  /** The frames of one text message, begun before them or not, with pings and pongs before its last fragment. */
  predicate IsMessage(fs: seq<WireFrame>, begun: bool): (ok: bool)
    ensures ok ==> forall f :: f in fs ==> Legal(f)
  {
    && fs != []
    && Legal(fs[0])
    && (if IsInterleaved(fs[0]) then IsMessage(fs[1..], begun)
        else fs[0].opcode == (if begun then CONTINUATION else TEXT)
             && (if fs[0].fin then |fs| == 1 else IsMessage(fs[1..], true)))
  }

  function TextOf(fs: seq<WireFrame>): bytes {
    if fs == [] then []
    else if IsInterleaved(fs[0]) then TextOf(fs[1..])
    else fs[0].payload + TextOf(fs[1..])
  }

  function InterleavedOf(fs: seq<WireFrame>): seq<Event> {
    if fs == [] then []
    else if IsInterleaved(fs[0]) then [EventOf(fs[0])] + InterleavedOf(fs[1..])
    else InterleavedOf(fs[1..])
  }

  lemma ReadFirst(fs: seq<WireFrame>, rest: bytes, partial: Option<bytes>)
    requires fs != [] && forall f :: f in fs ==> Legal(f)
    ensures var frame := RawFrame(fs[0].fin, fs[0].opcode, fs[0].payload);
            var after := EncodeAll(fs[1..]) + rest;
            ReadAll(EncodeAll(fs) + rest, partial)
            == match OnFrame(frame, partial)
               case Continue(p) => ReadAll(after, p)
               case Emit(event, p) => if event.Close? || event.Failed? then [event] else [event] + ReadAll(after, p)
  {
    assert EncodeAll(fs) + rest == Encode(fs[0]) + (EncodeAll(fs[1..]) + rest);
    DecodeUndoesEncode(fs[0], EncodeAll(fs[1..]) + rest);
  }

  predicate Fragment(f: WireFrame, partial: Option<bytes>) {
    Legal(f) && f.opcode == if partial.Some? then CONTINUATION else TEXT
  }

  lemma ReadInterleaved(fs: seq<WireFrame>, rest: bytes, partial: Option<bytes>)
    requires fs != [] && (forall f :: f in fs ==> Legal(f)) && IsInterleaved(fs[0])
    ensures ReadAll(EncodeAll(fs) + rest, partial) == [EventOf(fs[0])] + ReadAll(EncodeAll(fs[1..]) + rest, partial)
    ensures TextOf(fs) == TextOf(fs[1..]) && InterleavedOf(fs) == [EventOf(fs[0])] + InterleavedOf(fs[1..])
  {
    ReadFirst(fs, rest, partial);
  }

  lemma ReadFragment(fs: seq<WireFrame>, rest: bytes, partial: Option<bytes>)
    requires fs != [] && (forall f :: f in fs ==> Legal(f)) && Fragment(fs[0], partial)
    ensures InterleavedOf(fs) == InterleavedOf(fs[1..]) && TextOf(fs) == fs[0].payload + TextOf(fs[1..])
    ensures var grown := partial.GetOr([]) + fs[0].payload;
            ReadAll(EncodeAll(fs) + rest, partial)
            == if |grown| > MAX_WEBSOCKET_FRAME_BYTES then [Failed]
               else if fs[0].fin then [Text(grown)] + ReadAll(EncodeAll(fs[1..]) + rest, None)
               else ReadAll(EncodeAll(fs[1..]) + rest, Some(grown))
  {
    ReadFirst(fs, rest, partial);
    assert partial.None? ==> partial.GetOr([]) + fs[0].payload == fs[0].payload;
  }

  lemma MoreFrames(fs: seq<WireFrame>, begun: bool)
    requires IsMessage(fs, begun)
    ensures forall f :: f in fs[1..] ==> Legal(f)
    ensures IsInterleaved(fs[0]) ==> IsMessage(fs[1..], begun)
    ensures !IsInterleaved(fs[0]) && !fs[0].fin ==> IsMessage(fs[1..], true)
    ensures !IsInterleaved(fs[0]) && fs[0].fin ==> fs[1..] == []
  {
  }

  /** What a message given the fragments so far still yields, and then `after`. */
  function Expected(fs: seq<WireFrame>, sofar: bytes, after: seq<Event>): seq<Event> {
    InterleavedOf(fs) + [Text(sofar + TextOf(fs))] + after
  }

  lemma ExpectedStep(fs: seq<WireFrame>, sofar: bytes, after: seq<Event>)
    requires fs != []
    ensures IsInterleaved(fs[0]) ==> Expected(fs, sofar, after) == [EventOf(fs[0])] + Expected(fs[1..], sofar, after)
    ensures !IsInterleaved(fs[0]) ==> Expected(fs, sofar, after) == Expected(fs[1..], sofar + fs[0].payload, after)
  {
    if !IsInterleaved(fs[0]) {
      assert sofar + (fs[0].payload + TextOf(fs[1..])) == (sofar + fs[0].payload) + TextOf(fs[1..]);
    }
  }

  lemma ExpectedEnd(sofar: bytes, rest: bytes, after: seq<Event>)
    ensures Expected([], sofar, after) == [Text(sofar)] + after
    ensures EncodeAll([]) + rest == rest
  {
    assert sofar + [] == sofar;
  }

  /**
   Within the size limit, a text message cut into any fragments is handed out whole after the pings and
   pongs that came between them, and reading goes on afresh.
   */
  lemma {:induction false} Reassembled(fs: seq<WireFrame>, rest: bytes, partial: Option<bytes>)
    requires IsMessage(fs, partial.Some?)
    requires |partial.GetOr([])| + |TextOf(fs)| <= MAX_WEBSOCKET_FRAME_BYTES
    ensures ReadAll(EncodeAll(fs) + rest, partial) == Expected(fs, partial.GetOr([]), ReadAll(rest, None))
    decreases |fs|
  {
    MoreFrames(fs, partial.Some?);
    ExpectedStep(fs, partial.GetOr([]), ReadAll(rest, None));
    if IsInterleaved(fs[0]) {
      ReadInterleaved(fs, rest, partial);
      Reassembled(fs[1..], rest, partial);
    } else {
      ReadFragment(fs, rest, partial);
      var grown := partial.GetOr([]) + fs[0].payload;
      if fs[0].fin {
        ExpectedEnd(grown, rest, ReadAll(rest, None));
      } else {
        Reassembled(fs[1..], rest, Some(grown));
      }
    }
  }

  lemma FailsOneLater(event: Event, events: seq<Event>, n: nat)
    requires n <= |events|
    ensures [event] + (events[..n] + [Failed]) == ([event] + events)[..n + 1] + [Failed]
  {
  }

  /** Over the limit, no text is handed out: the reader fails after some of the pings and pongs. */
  lemma {:induction false} TooLargeFails(fs: seq<WireFrame>, rest: bytes, partial: Option<bytes>) returns (n: nat)
    requires IsMessage(fs, partial.Some?)
    requires |partial.GetOr([])| <= MAX_WEBSOCKET_FRAME_BYTES < |partial.GetOr([])| + |TextOf(fs)|
    ensures n <= |InterleavedOf(fs)|
    ensures ReadAll(EncodeAll(fs) + rest, partial) == InterleavedOf(fs)[..n] + [Failed]
    decreases |fs|
  {
    MoreFrames(fs, partial.Some?);
    if IsInterleaved(fs[0]) {
      ReadInterleaved(fs, rest, partial);
      n := TooLargeFails(fs[1..], rest, partial);
      FailsOneLater(EventOf(fs[0]), InterleavedOf(fs[1..]), n);
      n := n + 1;
    } else {
      ReadFragment(fs, rest, partial);
      var grown := partial.GetOr([]) + fs[0].payload;
      if |grown| > MAX_WEBSOCKET_FRAME_BYTES {
        n := 0;
      } else {
        assert |grown| + |TextOf(fs[1..])| == |partial.GetOr([])| + |TextOf(fs)|;
        n := TooLargeFails(fs[1..], rest, Some(grown));
      }
    }
  }

  /** A whole message, from nothing. */
  lemma MessageRoundTrip(fs: seq<WireFrame>, rest: bytes)
    requires IsMessage(fs, false) && |TextOf(fs)| <= MAX_WEBSOCKET_FRAME_BYTES
    ensures ReadAll(EncodeAll(fs) + rest, None) == InterleavedOf(fs) + [Text(TextOf(fs))] + ReadAll(rest, None)
  {
    Reassembled(fs, rest, None);
    assert [] + TextOf(fs) == TextOf(fs);
    assert Expected(fs, [], ReadAll(rest, None)) == InterleavedOf(fs) + [Text(TextOf(fs))] + ReadAll(rest, None);
  }

  // ---- The code ----

  ghost predicate Bounded(partial: Option<bytes>) {
    partial.Some? ==> |partial.value| <= MAX_WEBSOCKET_FRAME_BYTES
  }

  lemma DecodedPayloadBounded(stream: bytes)
    ensures Decode(stream).Decoded? ==> |Decode(stream).frame.payload| <= MAX_WEBSOCKET_FRAME_BYTES
  {
  }

  /** The reader of one connection, with `WebSocketReadState`. */
  class WebSocketReader {
    const bytesIn: ByteReader
    var partial: Option<bytes>

    constructor (bytesIn: ByteReader)
      ensures this.bytesIn == bytesIn && partial == None
    {
      this.bytesIn, partial := bytesIn, None;
    }

    /**
     `read_websocket_frame`: the next event of `ReadAll`, the rest being what the reader will hand out
     from there on. The partial text never grows beyond the limit, whatever the peer sends.
     */
    method ReadFrame() returns (event: Event)
      requires Bounded(partial)
      modifies this, bytesIn
      ensures Bounded(partial)
      ensures ReadAll(old(bytesIn.remaining), old(partial))
              == if event.Close? || event.Failed? || event.Eof? then [event]
                 else [event] + ReadAll(bytesIn.remaining, partial)
    {
      ghost var all := ReadAll(bytesIn.remaining, partial);
      while true
        invariant Bounded(partial) && ReadAll(bytesIn.remaining, partial) == all
        decreases |bytesIn.remaining|
      {
        DecodedIsShorter(bytesIn.remaining);
        DecodedPayloadBounded(bytesIn.remaining);
        var decoded := bytesIn.ReadRawFrame();
        if decoded.EndOfStream? {
          return Eof;
        }
        if decoded.Malformed? {
          return Failed;
        }
        var frame := decoded.frame;
        if frame.opcode == 0x1 {
          if partial.Some? {
            return Failed;
          }
          if frame.fin {
            return Text(frame.payload);
          }
          partial := Some(frame.payload);
        } else if frame.opcode == 0x0 {
          if partial.None? || |partial.value| + |frame.payload| > MAX_WEBSOCKET_FRAME_BYTES {
            return Failed;
          }
          partial := Some(partial.value + frame.payload);
          if frame.fin {
            event := Text(partial.value);
            partial := None;
            return;
          }
        } else {
          return match frame.opcode
                 case 0x8 => Close
                 case 0x9 => Ping(frame.payload)
                 case 0xA => Pong(frame.payload)
                 case _ => if frame.fin then Other else Failed;
        }
      }
    }
  }
}
