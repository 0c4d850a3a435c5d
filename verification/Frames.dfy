/**
 The WebSocket frame codec (wxcd-codex/src/lib.rs, `write_websocket_frame` and
 `read_raw_websocket_frame`; sections 5.2 and 5.3 of RFC 6455). The encoder here is general, with or
 without mask and in any length form, because that is what a peer may send; the writer emits one case.
 */
module Frames {
  import opened Wrappers
  import opened Bytes

  const MAX_WEBSOCKET_FRAME_BYTES := 16 * 1024 * 1024

  // ---- Numbers ----

  function Capacity(width: nat): nat {
    if width == 0 then 1 else 256 * Capacity(width - 1)
  }

  function BigEndian(n: nat, width: nat): (bs: bytes)
    ensures |bs| == width
  {
    if width == 0 then [] else BigEndian(n / 256, width - 1) + [Byte(n % 256)]
  }

  function FromBigEndian(bs: bytes): nat {
    if bs == [] then 0 else 256 * FromBigEndian(bs[..|bs| - 1]) + bs[|bs| - 1] as int
  }

  lemma {:induction false} BigEndianRoundTrip(n: nat, width: nat)
    requires n < Capacity(width)
    ensures FromBigEndian(BigEndian(n, width)) == n
  {
    if width > 0 {
      var bs := BigEndian(n, width);
      assert bs[..|bs| - 1] == BigEndian(n / 256, width - 1);
      BigEndianRoundTrip(n / 256, width - 1);
    }
  }

  // ---- Masking ----

  function Xor(payload: bytes, mask: bytes): (r: bytes)
    requires |mask| == 4
    ensures |r| == |payload|
  {
    seq(|payload|, i requires 0 <= i < |payload| => payload[i] ^ mask[i % 4])
  }

  lemma XorTwice(payload: bytes, mask: bytes)
    requires |mask| == 4
    ensures Xor(Xor(payload, mask), mask) == payload
  {
    forall i | 0 <= i < |payload| ensures (payload[i] ^ mask[i % 4]) ^ mask[i % 4] == payload[i] {
    }
  }

  // ---- Frames on the wire ----

  /** The three length forms of section 5.2; a reader takes any of them. */
  datatype Form = Short | Medium | Long

  datatype WireFrame = WireFrame(fin: bool, opcode: bv8, mask: Option<bytes>, form: Form, payload: bytes)

  datatype RawFrame = RawFrame(fin: bool, opcode: bv8, payload: bytes)

  predicate IsControl(opcode: bv8) {
    opcode & 0x08 != 0
  }

  predicate FormFits(form: Form, length: nat) {
    match form
    case Short => length < 126
    case Medium => length < 0x1_0000
    case Long => true
  }

  predicate Legal(f: WireFrame) {
    && f.opcode < 16
    && |f.payload| <= MAX_WEBSOCKET_FRAME_BYTES
    && (IsControl(f.opcode) ==> f.fin && |f.payload| <= 125)
    && (f.mask.Some? ==> |f.mask.value| == 4)
    && FormFits(f.form, |f.payload|)
  }

  function FirstByte(fin: bool, opcode: bv8): bv8 {
    (if fin then 0x80 else 0) | (opcode & 0x0F)
  }

  function SecondByte(masked: bool, form: Form, length: nat): bv8
    requires FormFits(form, length)
  {
    (if masked then 0x80 else 0) | (match form case Short => Byte(length) case Medium => 126 case Long => 127)
  }

  function ExtendedLength(form: Form, length: nat): bytes {
    match form
    case Short => []
    case Medium => BigEndian(length, 2)
    case Long => BigEndian(length, 8)
  }

  /** Mask key, if any, and payload as it goes over the wire. */
  function Body(f: WireFrame): bytes
    requires f.mask.Some? ==> |f.mask.value| == 4
  {
    f.mask.GetOr([]) + (if f.mask.Some? then Xor(f.payload, f.mask.value) else f.payload)
  }

  function Encode(f: WireFrame): bytes
    requires Legal(f)
  {
    [FirstByte(f.fin, f.opcode), SecondByte(f.mask.Some?, f.form, |f.payload|)]
    + ExtendedLength(f.form, |f.payload|)
    + Body(f)
  }

  datatype Decoded = EndOfStream | Malformed | Decoded(frame: RawFrame, rest: bytes)

  function FormOf(second: bv8): Form {
    if second & 0x7F == 126 then Medium else if second & 0x7F == 127 then Long else Short
  }

  function ExtendedSize(form: Form): nat {
    match form
    case Short => 0
    case Medium => 2
    case Long => 8
  }

  /** What `read_raw_websocket_frame` makes of the bytes that are still to come. */
  function Decode(stream: bytes): Decoded {
    if |stream| < 2 then EndOfStream
    else
      var form := FormOf(stream[1]);
      var size := ExtendedSize(form);
      if |stream| < 2 + size then Malformed
      else
        var length := if form.Short? then (stream[1] & 0x7F) as int else FromBigEndian(stream[2..2 + size]);
        DecodeBody(stream[0] & 0x80 != 0, stream[0] & 0x0F, stream[1] & 0x80 != 0, length, stream[2 + size..])
  }

  function DecodeBody(fin: bool, opcode: bv8, masked: bool, length: nat, body: bytes): Decoded {
    if length > MAX_WEBSOCKET_FRAME_BYTES then Malformed
    else if IsControl(opcode) && (!fin || length > 125) then Malformed
    else
      var skip := if masked then 4 else 0;
      if |body| < skip + length then Malformed
      else
        var data := body[skip..skip + length];
        Decoded(RawFrame(fin, opcode, if masked then Xor(data, body[..4]) else data), body[skip + length..])
  }

  /** The single frames of section 5.7 of RFC 6455. */
  lemma FramesOfTheStandard()
    ensures Decode([0x81, 0x05, 0x48, 0x65, 0x6c, 0x6c, 0x6f])
            == Decoded(RawFrame(true, 1, [0x48, 0x65, 0x6c, 0x6c, 0x6f]), [])
    ensures Decode([0x81, 0x85, 0x37, 0xfa, 0x21, 0x3d, 0x7f, 0x9f, 0x4d, 0x51, 0x58])
            == Decoded(RawFrame(true, 1, [0x48, 0x65, 0x6c, 0x6c, 0x6f]), [])
    ensures Decode([0x01, 0x03, 0x48, 0x65, 0x6c]) == Decoded(RawFrame(false, 1, [0x48, 0x65, 0x6c]), [])
    ensures Decode([0x80, 0x02, 0x6c, 0x6f]) == Decoded(RawFrame(true, 0, [0x6c, 0x6f]), [])
  {
    StandardUnmasked();
    StandardMasked();
  }

  lemma StandardUnmasked()
    ensures Decode([0x81, 0x05, 0x48, 0x65, 0x6c, 0x6c, 0x6f])
            == Decoded(RawFrame(true, 1, [0x48, 0x65, 0x6c, 0x6c, 0x6f]), [])
    ensures Decode([0x01, 0x03, 0x48, 0x65, 0x6c]) == Decoded(RawFrame(false, 1, [0x48, 0x65, 0x6c]), [])
    ensures Decode([0x80, 0x02, 0x6c, 0x6f]) == Decoded(RawFrame(true, 0, [0x6c, 0x6f]), [])
  {
    var a: bytes, b: bytes, c: bytes :=
      [0x81, 0x05, 0x48, 0x65, 0x6c, 0x6c, 0x6f], [0x01, 0x03, 0x48, 0x65, 0x6c], [0x80, 0x02, 0x6c, 0x6f];
    assert a[2..] == [0x48, 0x65, 0x6c, 0x6c, 0x6f] && a[2..][0..5] == a[2..] && a[2..][5..] == [];
    assert b[2..] == [0x48, 0x65, 0x6c] && b[2..][0..3] == b[2..] && b[2..][3..] == [];
    assert c[2..] == [0x6c, 0x6f] && c[2..][0..2] == c[2..] && c[2..][2..] == [];
  }

  lemma StandardMasked()
    ensures Decode([0x81, 0x85, 0x37, 0xfa, 0x21, 0x3d, 0x7f, 0x9f, 0x4d, 0x51, 0x58])
            == Decoded(RawFrame(true, 1, [0x48, 0x65, 0x6c, 0x6c, 0x6f]), [])
  {
    var a: bytes := [0x81, 0x85, 0x37, 0xfa, 0x21, 0x3d, 0x7f, 0x9f, 0x4d, 0x51, 0x58];
    var body: bytes := [0x37, 0xfa, 0x21, 0x3d, 0x7f, 0x9f, 0x4d, 0x51, 0x58];
    var mask: bytes, data: bytes := [0x37, 0xfa, 0x21, 0x3d], [0x7f, 0x9f, 0x4d, 0x51, 0x58];
    assert a[2..] == body && body[..4] == mask && body[4..9] == data && body[9..] == [];
    assert Xor(data, mask) == [0x48, 0x65, 0x6c, 0x6c, 0x6f];
  }

  lemma BigEndianDigit(bs: bytes, b: bv8)
    ensures FromBigEndian(bs + [b]) == 256 * FromBigEndian(bs) + b as int
  {
    assert (bs + [b])[..|bs + [b]| - 1] == bs;
  }

  lemma LeadingZeros(k: nat)
    ensures FromBigEndian(seq(k, _ => 0)) == 0
  {
    if k > 0 {
      LeadingZeros(k - 1);
      assert seq(k, _ => 0 as bv8)[..k - 1] == seq(k - 1, _ => 0);
    }
  }

  /** Its two binary messages, of 256 bytes and of 64 KiB, show the two extended length forms. */
  lemma LongFramesOfTheStandard(data: bytes)
    ensures |data| == 256 ==> Decode([0x82, 0x7E, 0x01, 0x00] + data) == Decoded(RawFrame(true, 2, data), [])
    ensures |data| == 65536 ==>
              Decode([0x82, 0x7F, 0, 0, 0, 0, 0, 0x01, 0, 0] + data) == Decoded(RawFrame(true, 2, data), [])
  {
    assert data[0..|data|] == data && data[|data|..] == [];
    BigEndianDigit([], 0x01);
    BigEndianDigit([0x01], 0x00);
    DecodeParts(0x82, 0x7E, [0x01, 0x00], data);
    assert [0x82, 0x7E] + [0x01, 0x00] + data == [0x82, 0x7E, 0x01, 0x00] + data;
    var zeros: bytes := [0, 0, 0, 0, 0];
    LeadingZeros(5);
    assert zeros == seq(5, _ => 0 as bv8);
    BigEndianDigit(zeros, 0x01);
    BigEndianDigit(zeros + [0x01], 0);
    BigEndianDigit(zeros + [0x01] + [0], 0);
    var length: bytes := [0, 0, 0, 0, 0, 0x01, 0, 0];
    assert length == zeros + [0x01] + [0] + [0];
    DecodeParts(0x82, 0x7F, length, data);
    assert [0x82, 0x7F] + length + data == [0x82, 0x7F, 0, 0, 0, 0, 0, 0x01, 0, 0] + data;
  }

  /** What the reader refuses: a length above the limit, and a control frame that is cut or longer than 125 bytes. */
  lemma DecodedIsWithinLimits(stream: bytes)
    requires Decode(stream).Decoded?
    ensures var frame := Decode(stream).frame;
            && |frame.payload| <= 0x100_0000 && frame.opcode < 16
            && (frame.opcode >= 8 ==> frame.fin && |frame.payload| <= 125)
  {
    OpcodeBits(stream[0]);
  }

  lemma OpcodeBits(b: bv8)
    ensures b & 0x0F < 16
    ensures (b & 0x0F) >= 8 ==> (b & 0x0F) & 0x08 != 0
  {
  }

  // ---- Reading undoes writing ----

  lemma FirstBits(fin: bool, opcode: bv8)
    requires opcode < 16
    ensures FirstByte(fin, opcode) & 0x0F == opcode
    ensures FirstByte(fin, opcode) & 0x80 != 0 <==> fin
  {
  }

  lemma ShortBits(b: bv8)
    requires b < 126
    ensures (0x80 | b) & 0x7F == b && b & 0x7F == b
    ensures (0x80 | b) & 0x80 != 0 && b & 0x80 == 0 && 0 | b == b
  {
  }

  lemma ShortByte(b: bv8)
    requires b as int < 126
    ensures b < 126
  {
  }

  lemma SecondBits(masked: bool, form: Form, length: nat)
    requires FormFits(form, length)
    ensures SecondByte(masked, form, length) & 0x80 != 0 <==> masked
    ensures FormOf(SecondByte(masked, form, length)) == form
    ensures form.Short? ==> (SecondByte(masked, form, length) & 0x7F) as int == length
  {
    if form.Short? {
      ShortByte(Byte(length));
      ShortBits(Byte(length));
    }
  }

  lemma LengthRoundTrip(form: Form, length: nat)
    requires FormFits(form, length) && length <= MAX_WEBSOCKET_FRAME_BYTES
    ensures |ExtendedLength(form, length)| == ExtendedSize(form)
    ensures !form.Short? ==> FromBigEndian(ExtendedLength(form, length)) == length
  {
    match form
    case Short =>
    case Medium =>
      assert Capacity(2) == 0x1_0000 by { assert Capacity(1) == 256; }
      BigEndianRoundTrip(length, 2);
    case Long =>
      CapacityAtLeast(8);
      BigEndianRoundTrip(length, 8);
  }

  lemma CapacityAtLeast(width: nat)
    requires width >= 4
    ensures Capacity(width) >= 0x1_0000_0000
    decreases width
  {
    if width == 4 {
      assert Capacity(1) == 256;
      assert Capacity(2) == 0x1_0000;
      assert Capacity(3) == 0x100_0000;
    } else {
      CapacityAtLeast(width - 1);
    }
  }

  lemma DecodeParts(first: bv8, second: bv8, extended: bytes, body: bytes)
    requires |extended| == ExtendedSize(FormOf(second))
    ensures Decode([first, second] + extended + body)
            == DecodeBody(first & 0x80 != 0, first & 0x0F, second & 0x80 != 0,
                          if FormOf(second).Short? then (second & 0x7F) as int else FromBigEndian(extended), body)
  {
    var stream := [first, second] + extended + body;
    Cut([first, second], extended, body);
    assert stream[0] == first && stream[1] == second;
  }

  lemma EncodeParts(f: WireFrame, rest: bytes)
    requires Legal(f)
    ensures Encode(f) + rest
            == [FirstByte(f.fin, f.opcode), SecondByte(f.mask.Some?, f.form, |f.payload|)]
               + ExtendedLength(f.form, |f.payload|) + (Body(f) + rest)
  {
    var head := [FirstByte(f.fin, f.opcode), SecondByte(f.mask.Some?, f.form, |f.payload|)]
                + ExtendedLength(f.form, |f.payload|);
    assert head + Body(f) + rest == head + (Body(f) + rest);
  }

  /** A legal frame, followed by anything, decodes to its own contents and leaves what follows untouched. */
  lemma DecodeUndoesEncode(f: WireFrame, rest: bytes)
    requires Legal(f)
    ensures Decode(Encode(f) + rest) == Decoded(RawFrame(f.fin, f.opcode, f.payload), rest)
  {
    var first, second := FirstByte(f.fin, f.opcode), SecondByte(f.mask.Some?, f.form, |f.payload|);
    EncodeParts(f, rest);
    FirstBits(f.fin, f.opcode);
    SecondBits(f.mask.Some?, f.form, |f.payload|);
    LengthRoundTrip(f.form, |f.payload|);
    DecodeParts(first, second, ExtendedLength(f.form, |f.payload|), Body(f) + rest);
    BodyRoundTrip(f, rest);
  }

  lemma Cut(a: bytes, b: bytes, c: bytes)
    ensures (a + b + c)[|a|..|a| + |b|] == b
    ensures (a + b + c)[|a| + |b|..] == c
  {
  }

  lemma BodyRoundTrip(f: WireFrame, rest: bytes)
    requires Legal(f)
    ensures DecodeBody(f.fin, f.opcode, f.mask.Some?, |f.payload|, Body(f) + rest)
            == Decoded(RawFrame(f.fin, f.opcode, f.payload), rest)
  {
    var n, body := |f.payload|, Body(f) + rest;
    if f.mask.Some? {
      XorTwice(f.payload, f.mask.value);
      assert body[..4] == f.mask.value;
      assert body[4..4 + n] == Xor(f.payload, f.mask.value);
      assert body[4 + n..] == rest;
    } else {
      assert body[0..n] == f.payload;
      assert body[n..] == rest;
    }
  }

  function EncodeAll(fs: seq<WireFrame>): bytes
    requires forall f :: f in fs ==> Legal(f)
  {
    if fs == [] then [] else Encode(fs[0]) + EncodeAll(fs[1..])
  }

  /** The first `n` frames of a stream and what follows them. */
  function DecodeMany(stream: bytes, n: nat): Option<(seq<RawFrame>, bytes)> {
    if n == 0 then Some(([], stream))
    else match Decode(stream)
      case Decoded(frame, rest) =>
        (match DecodeMany(rest, n - 1)
         case Some((frames, after)) => Some(([frame] + frames, after))
         case None => None)
      case _ => None
  }

  function Raw(fs: seq<WireFrame>): seq<RawFrame> {
    if fs == [] then [] else [RawFrame(fs[0].fin, fs[0].opcode, fs[0].payload)] + Raw(fs[1..])
  }

  /** So any concatenation of legal frames parses back frame by frame. */
  lemma {:induction false} StreamRoundTrip(fs: seq<WireFrame>, rest: bytes)
    requires forall f :: f in fs ==> Legal(f)
    ensures DecodeMany(EncodeAll(fs) + rest, |fs|) == Some((Raw(fs), rest))
  {
    if fs == [] {
      assert EncodeAll(fs) + rest == rest;
    } else {
      assert EncodeAll(fs) + rest == Encode(fs[0]) + (EncodeAll(fs[1..]) + rest);
      DecodeUndoesEncode(fs[0], EncodeAll(fs[1..]) + rest);
      StreamRoundTrip(fs[1..], rest);
    }
  }

  // ---- The code ----

  function FormFor(length: nat): Form {
    if length < 126 then Short else if length < 0x1_0000 then Medium else Long
  }

  lemma XorPrefix(payload: bytes, mask: bytes, index: nat)
    requires |mask| == 4 && index < |payload|
    ensures Xor(payload, mask)[..index + 1] == Xor(payload, mask)[..index] + [payload[index] ^ mask[index % 4]]
  {
  }

  /** The form written is one that fits, and no other that fits takes fewer bytes. */
  lemma ShortestForm(length: nat, other: Form)
    requires length <= MAX_WEBSOCKET_FRAME_BYTES && FormFits(other, length)
    ensures FormFits(FormFor(length), length)
    ensures |ExtendedLength(FormFor(length), length)| <= |ExtendedLength(other, length)|
  {
  }

  /** `write_websocket_frame`: refused, or a final frame under the given mask in the shortest form. */
  method WriteFrame(opcode: bv8, payload: bytes, mask: bytes) returns (r: Result<bytes, string>)
    requires |mask| == 4
    ensures r.Success? <==>
            |payload| <= MAX_WEBSOCKET_FRAME_BYTES && (IsControl(opcode) ==> |payload| <= 125)
    ensures r.Success? ==>
              var f := WireFrame(true, opcode & 0x0F, Some(mask), FormFor(|payload|), payload);
              Legal(f) && r.value == Encode(f)
  {
    if |payload| > MAX_WEBSOCKET_FRAME_BYTES {
      return Failure("payload exceeds maximum size");
    }
    if opcode & 0x08 != 0 && |payload| > 125 {
      return Failure("control payload exceeds maximum size");
    }
    var frame := WriteHeader(opcode, |payload|);
    frame := frame + mask;
    ghost var header := frame;
    for index := 0 to |payload|
      invariant frame == header + Xor(payload, mask)[..index]
    {
      XorPrefix(payload, mask, index);
      frame := frame + [payload[index] ^ mask[index % 4]];
    }
    assert Xor(payload, mask)[..|payload|] == Xor(payload, mask);
    MaskedFrame(opcode, payload, mask);
    r := Success(frame);
  }

  lemma MaskedFrame(opcode: bv8, payload: bytes, mask: bytes)
    requires |mask| == 4 && |payload| <= MAX_WEBSOCKET_FRAME_BYTES && (IsControl(opcode) ==> |payload| <= 125)
    ensures var f := WireFrame(true, opcode & 0x0F, Some(mask), FormFor(|payload|), payload);
            && Legal(f)
            && Encode(f) == [FirstByte(true, opcode), SecondByte(true, FormFor(|payload|), |payload|)]
                            + ExtendedLength(FormFor(|payload|), |payload|) + mask + Xor(payload, mask)
  {
    LowBits(opcode);
  }

  lemma LowBits(opcode: bv8)
    ensures (opcode & 0x0F) & 0x0F == opcode & 0x0F && opcode & 0x0F < 16
    ensures (opcode & 0x0F) & 0x08 == opcode & 0x08
  {
  }

  method WriteHeader(opcode: bv8, length: nat) returns (frame: bytes)
    requires length <= MAX_WEBSOCKET_FRAME_BYTES
    ensures frame == [FirstByte(true, opcode), SecondByte(true, FormFor(length), length)]
                     + ExtendedLength(FormFor(length), length)
  {
    frame := [0x80 | (opcode & 0x0F)];
    if length < 126 {
      frame := frame + [0x80 | Byte(length)];
    } else if length < 0x1_0000 {
      frame := frame + [0x80 | 126];
      frame := frame + BigEndian(length, 2);
    } else {
      frame := frame + [0x80 | 127];
      frame := frame + BigEndian(length, 8);
    }
  }

  /** The unmasking loop of the reader, in place. */
  method UnmaskInPlace(payload: array<bv8>, mask: bytes)
    requires |mask| == 4
    modifies payload
    ensures payload[..] == Xor(old(payload[..]), mask)
  {
    for index := 0 to payload.Length
      invariant forall i :: 0 <= i < index ==> payload[i] == old(payload[i]) ^ mask[i % 4]
      invariant forall i :: index <= i < payload.Length ==> payload[i] == old(payload[i])
    {
      payload[index] := payload[index] ^ mask[index % 4];
    }
  }

  lemma DecodeAfterHeader(stream: bytes)
    requires |stream| >= 2 && |stream| >= 2 + ExtendedSize(FormOf(stream[1]))
    ensures var size := ExtendedSize(FormOf(stream[1]));
            Decode(stream)
            == DecodeBody(stream[0] & 0x80 != 0, stream[0] & 0x0F, stream[1] & 0x80 != 0,
                          if size == 0 then (stream[1] & 0x7F) as int else FromBigEndian(stream[2..][..size]),
                          stream[2..][size..])
  {
    var size := ExtendedSize(FormOf(stream[1]));
    assert stream[2..][..size] == stream[2..2 + size] && stream[2..][size..] == stream[2 + size..];
  }

  /** The connection's incoming bytes. */
  class ByteReader {
    var remaining: bytes

    constructor (stream: bytes)
      ensures remaining == stream
    {
      remaining := stream;
    }

    /** `read_exact`: all of the bytes, or none. */
    method ReadExact(n: nat) returns (r: Option<bytes>)
      modifies this
      ensures |old(remaining)| < n ==> r == None && remaining == []
      ensures |old(remaining)| >= n ==> r == Some(old(remaining)[..n]) && remaining == old(remaining)[n..]
    {
      if |remaining| < n {
        remaining := [];
        return None;
      }
      r := Some(remaining[..n]);
      remaining := remaining[n..];
    }

    method ReadRawFrame() returns (r: Decoded)
      modifies this
      ensures r == Decode(old(remaining))
      ensures r.Decoded? ==> remaining == r.rest
    {
      ghost var stream := remaining;
      var header := ReadExact(2);
      if header.None? {
        return EndOfStream;
      }
      var first, second := header.value[0], header.value[1];
      var length := ReadLength(second);
      if length.None? {
        return Malformed;
      }
      DecodeAfterHeader(stream);
      r := ReadBody(first & 0x80 != 0, first & 0x0F, second & 0x80 != 0, length.value);
    }

    /** The extended length, if the second header byte announces one. */
    method ReadLength(second: bv8) returns (r: Option<nat>)
      modifies this
      ensures var size := ExtendedSize(FormOf(second));
              if |old(remaining)| < size then r == None
              else
                && remaining == old(remaining)[size..]
                && r == Some(if size == 0 then (second & 0x7F) as int else FromBigEndian(old(remaining)[..size]))
    {
      if second & 0x7F == 126 {
        var extended := ReadExact(2);
        if extended.None? {
          return None;
        }
        return Some(FromBigEndian(extended.value));
      } else if second & 0x7F == 127 {
        var extended := ReadExact(8);
        if extended.None? {
          return None;
        }
        return Some(FromBigEndian(extended.value));
      }
      return Some((second & 0x7F) as int);
    }

    method ReadBody(fin: bool, opcode: bv8, masked: bool, length: nat) returns (r: Decoded)
      modifies this
      ensures r == DecodeBody(fin, opcode, masked, length, old(remaining))
      ensures r.Decoded? ==> remaining == r.rest
    {
      if length > MAX_WEBSOCKET_FRAME_BYTES {
        return Malformed;
      }
      if opcode & 0x08 != 0 && (!fin || length > 125) {
        return Malformed;
      }
      var payload := ReadPayload(masked, length);
      if payload.None? {
        return Malformed;
      }
      r := Decoded(RawFrame(fin, opcode, payload.value), remaining);
    }

    /** The mask key, if there is one, and the payload, unmasked. */
    method ReadPayload(masked: bool, length: nat) returns (r: Option<bytes>)
      modifies this
      ensures var body, skip := old(remaining), if masked then 4 else 0;
              if |body| < skip + length then r == None
              else
                var data := body[skip..skip + length];
                && r == Some(if masked then Xor(data, body[..4]) else data)
                && remaining == body[skip + length..]
    {
      ghost var body := remaining;
      var mask := None;
      if masked {
        mask := ReadExact(4);
        if mask.None? {
          return None;
        }
      }
      ghost var skip := if masked then 4 else 0;
      assert remaining == body[skip..];
      var data := ReadExact(length);
      if data.None? {
        return None;
      }
      assert body[skip..][..length] == body[skip..skip + length] && body[skip..][length..] == body[skip + length..];
      var payload := new bv8[length](i requires 0 <= i < length => data.value[i]);
      assert payload[..] == data.value;
      if masked {
        UnmaskInPlace(payload, mask.value);
      }
      r := Some(payload[..]);
    }
  }
}
