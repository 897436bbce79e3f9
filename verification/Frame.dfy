/** Framed transport: the sealed frame header, the one-frame codec, and the fail-stop
    streaming decoder that must not depend on how the stream is cut
    (src/transport/frame.cpp). */
module Frame {
  import opened Words
  import opened Crc32c
  import opened Sealed
  import J = Journal

  const FRAME_MAGIC: u32 := 0x4E43_4644
  const FRAME_FORMAT: u16 := 1
  const FRAME_HEADER: nat := 80
  const MAX_FRAME_PAYLOAD: nat := 0x10_0000
  const TYPE_COUNT: u16 := 12

  datatype FrameHeader = FrameHeader(
    magic: u32, format: u16, kind: u16, flags: u16, reserved: u16, payloadLen: u32, headerCrc: u32, payloadCrc: u32,
    epoch: u64, boot: u64, publisher: u64, connection: u64, sequence: u64, nonce: u64, reserved2: u32, reserved3: u32)

  datatype Message = Message(header: FrameHeader, payload: seq<u8>)

  datatype FrameError = IntegrityFailure | Unsupported | Malformed | Oversized | Truncated | InvalidArgument

  datatype Result<T> = Ok(value: T) | Err(error: FrameError)

  // ---- Header codec ---------------------------------------------------------

  const FRAME_WIDTHS: seq<Width> :=
    [Four, Two, Two, Two, Two, Four, Four, Four, Eight, Eight, Eight, Eight, Eight, Eight, Four, Four]
  const FRAME_SEAL_WORD: nat := 6
  const FRAME_SEAL: nat := 16

  lemma {:induction false} FrameOffsets()
    ensures Offset(FRAME_WIDTHS, |FRAME_WIDTHS|) == FRAME_HEADER && Offset(FRAME_WIDTHS, FRAME_SEAL_WORD) == FRAME_SEAL
  {
    hide Offset;
    var ks := FRAME_WIDTHS;
    OffsetSteps(ks);
    assert ks[0].Size() == 4 && ks[1].Size() == 2 && ks[2].Size() == 2 && ks[3].Size() == 2 && ks[4].Size() == 2;
    assert ks[5].Size() == 4 && ks[6].Size() == 4 && ks[7].Size() == 4;
    assert Offset(ks, 8) == 24;
    assert ks[8].Size() == 8 && ks[9].Size() == 8 && ks[10].Size() == 8 && ks[11].Size() == 8;
    assert ks[12].Size() == 8 && ks[13].Size() == 8 && ks[14].Size() == 4 && ks[15].Size() == 4;
  }

  function FrameWords(h: FrameHeader): (ws: seq<Word>)
    ensures Shaped(FRAME_WIDTHS, ws)
  {
    [W4(h.magic), W2(h.format), W2(h.kind), W2(h.flags), W2(h.reserved), W4(h.payloadLen), W4(h.headerCrc),
     W4(h.payloadCrc), W8(h.epoch), W8(h.boot), W8(h.publisher), W8(h.connection), W8(h.sequence), W8(h.nonce),
     W4(h.reserved2), W4(h.reserved3)]
  }

  function FrameOf(ws: seq<Word>): (h: FrameHeader)
    requires Shaped(FRAME_WIDTHS, ws)
    ensures FrameWords(h) == ws
  {
    assert WidthOf(ws[0]) == Four && WidthOf(ws[1]) == Two && WidthOf(ws[2]) == Two && WidthOf(ws[3]) == Two;
    assert WidthOf(ws[4]) == Two && WidthOf(ws[5]) == Four && WidthOf(ws[6]) == Four && WidthOf(ws[7]) == Four;
    assert WidthOf(ws[8]) == Eight && WidthOf(ws[9]) == Eight && WidthOf(ws[10]) == Eight && WidthOf(ws[11]) == Eight;
    assert WidthOf(ws[12]) == Eight && WidthOf(ws[13]) == Eight && WidthOf(ws[14]) == Four && WidthOf(ws[15]) == Four;
    FrameHeader(ws[0].n4, ws[1].n2, ws[2].n2, ws[3].n2, ws[4].n2, ws[5].n4, ws[6].n4, ws[7].n4,
                ws[8].n8, ws[9].n8, ws[10].n8, ws[11].n8, ws[12].n8, ws[13].n8, ws[14].n4, ws[15].n4)
  }

  function EncodeFrameHeader(h: FrameHeader): (b: seq<u8>)
    ensures |b| == FRAME_HEADER
  {
    FrameOffsets();
    Pack(FRAME_WIDTHS, FrameWords(h))
  }

  function FrameCrc(h: FrameHeader): u32 {
    Crc(EncodeFrameHeader(h.(headerCrc := 0)))
  }

  function RawFrameHeader(b: seq<u8>): (h: FrameHeader)
    requires |b| == FRAME_HEADER
    ensures EncodeFrameHeader(h) == b
  {
    FrameOffsets();
    PackUnpack(FRAME_WIDTHS, b);
    FrameOf(Unpack(FRAME_WIDTHS, b))
  }

  function DecodeFrameHeader(b: seq<u8>): FrameHeader
    requires |b| == FRAME_HEADER
  {
    var h := RawFrameHeader(b);
    if FrameCrc(h) != h.headerCrc then h.(magic := 0) else h
  }

  lemma {:induction false} FrameHeaderRoundTrip(h: FrameHeader)
    requires h.headerCrc == FrameCrc(h)
    ensures DecodeFrameHeader(EncodeFrameHeader(h)) == h
  {
    hide FrameCrc;
    FrameOffsets();
    UnpackPack(FRAME_WIDTHS, FrameWords(h));
  }

  lemma {:induction false} BlankFrame(h: FrameHeader)
    ensures FrameWords(h)[FRAME_SEAL_WORD := Zero(Four)] == FrameWords(h.(headerCrc := 0))
    ensures FrameWords(h)[FRAME_SEAL_WORD] == W4(h.headerCrc) && FRAME_WIDTHS[FRAME_SEAL_WORD] == Four
  {
  }

  lemma {:induction false} FrameSeal(b: seq<u8>)
    requires |b| == FRAME_HEADER
    ensures FrameCrc(RawFrameHeader(b)) == RawFrameHeader(b).headerCrc <==> SealOk(b, FRAME_SEAL)
  {
    hide FrameWords, FrameOf, Crc;
    FrameOffsets();
    var h := RawFrameHeader(b);
    PackUnpack(FRAME_WIDTHS, b);
    PackZeroed(FRAME_WIDTHS, b, FRAME_SEAL_WORD);
    UnpackAt(FRAME_WIDTHS, b, FRAME_SEAL_WORD);
    UnLe32(h.headerCrc);
    BlankFrame(h);
  }

  // ---- One frame ------------------------------------------------------------

  predicate KnownType(kind: u16) {
    0 < kind < TYPE_COUNT
  }

  /** The compressed and extended bits are reserved. */
  predicate ReservedFlag(flags: u16) {
    flags / 4 % 2 == 1 || flags / 8 % 2 == 1
  }

  function EncodeCheck(m: Message): Result<()> {
    if !KnownType(m.header.kind) then Err(InvalidArgument)
    else if |m.payload| > MAX_FRAME_PAYLOAD then Err(Oversized)
    else if ReservedFlag(m.header.flags) then Err(Unsupported)
    else Ok(())
  }

  /** The frame as it goes out: framing fields filled in, later reserved words cleared. */
  function Normal(m: Message): (r: Message)
    requires |m.payload| <= MAX_FRAME_PAYLOAD
    ensures r.payload == m.payload && r.header.headerCrc == FrameCrc(r.header)
  {
    var h := m.header.(magic := FRAME_MAGIC, format := FRAME_FORMAT, payloadLen := |m.payload|,
                       payloadCrc := Crc(m.payload), reserved2 := 0, reserved3 := 0, headerCrc := 0);
    Message(h.(headerCrc := FrameCrc(h)), m.payload)
  }

  function FrameBytes(m: Message): (b: seq<u8>)
    ensures |b| == FRAME_HEADER + |m.payload|
  {
    EncodeFrameHeader(m.header) + m.payload
  }

  function EncodeFrame(m: Message): (r: Result<seq<u8>>)
    ensures r.Ok? <==> EncodeCheck(m).Ok?
  {
    match EncodeCheck(m)
    case Err(e) => Err(e)
    case Ok(_) => Ok(FrameBytes(Normal(m)))
  }

  /** Exactly one frame, with nothing after it. */
  function DecodeFrame(b: seq<u8>): Result<Message> {
    if |b| < FRAME_HEADER then Err(Truncated)
    else
      var h := DecodeFrameHeader(b[..FRAME_HEADER]);
      if h.magic != FRAME_MAGIC then Err(IntegrityFailure)
      else if h.format != FRAME_FORMAT then Err(Unsupported)
      else if !KnownType(h.kind) then Err(Malformed)
      else if ReservedFlag(h.flags) then Err(Unsupported)
      else if h.payloadLen > MAX_FRAME_PAYLOAD then Err(Oversized)
      else if |b| != FRAME_HEADER + h.payloadLen then Err(Malformed)
      else if Crc(b[FRAME_HEADER..]) != h.payloadCrc then Err(IntegrityFailure)
      else Ok(Message(h, b[FRAME_HEADER..]))
  }

  lemma {:induction false} NormalHeader(m: Message)
    requires EncodeCheck(m).Ok?
    ensures var h := Normal(m).header;
            && h.magic == FRAME_MAGIC && h.format == FRAME_FORMAT && h.kind == m.header.kind && KnownType(h.kind)
            && !ReservedFlag(h.flags) && h.payloadLen == |m.payload| <= MAX_FRAME_PAYLOAD
                && h.payloadCrc == Crc(m.payload)
            && DecodeFrameHeader(FrameBytes(Normal(m))[..FRAME_HEADER]) == h
  {
    hide Crc, FrameCrc, EncodeFrameHeader, DecodeFrameHeader;
    FrameHeaderRoundTrip(Normal(m).header);
  }

  /** Decoding an encoded frame gives the frame, normalised. */
  lemma {:induction false} FrameRoundTrip(m: Message)
    requires EncodeCheck(m).Ok?
    ensures DecodeFrame(EncodeFrame(m).value) == Ok(Normal(m))
  {
    hide Crc, Normal, EncodeFrameHeader, DecodeFrameHeader, ReservedFlag;
    NormalHeader(m);
    assert FrameBytes(Normal(m))[FRAME_HEADER..] == m.payload;
  }

  /** A frame as the protocol has it: sealed, of a known type, with neither reserved flag, its
      payload as long as it says, within a mebibyte and with the checksum it carries. */
  predicate Proper(m: Message) {
    var h := m.header;
    && h.magic == 0x4E43_4644 && h.format == 1 && 1 <= h.kind <= 11
    && h.flags % 16 < 4
    && h.payloadLen == |m.payload| <= 1_048_576
    && h.headerCrc == Crc(EncodeFrameHeader(h.(headerCrc := 0))) && h.payloadCrc == Crc(m.payload)
  }

  /** Decoding accepts exactly the bytes of proper frames. */
  lemma {:induction false} DecodeExact(b: seq<u8>, m: Message)
    ensures DecodeFrame(b) == Ok(m) <==> Proper(m) && b == EncodeFrameHeader(m.header) + m.payload
  {
    hide Crc, EncodeFrameHeader, RawFrameHeader;
    FlagBits(m.header.flags);
    if |b| >= FRAME_HEADER {
      assert b == b[..FRAME_HEADER] + b[FRAME_HEADER..];
      FlagBits(DecodeFrameHeader(b[..FRAME_HEADER]).flags);
    }
    if Proper(m) && b == EncodeFrameHeader(m.header) + m.payload {
      assert b[..FRAME_HEADER] == EncodeFrameHeader(m.header) && b[FRAME_HEADER..] == m.payload;
      FrameHeaderRoundTrip(m.header);
    }
  }

  lemma {:induction false} FlagBits(flags: u16)
    ensures !ReservedFlag(flags) <==> flags % 16 < 4
  {
  }

  /** Neither a strict prefix of a frame nor a frame with bytes after it is a frame. */
  lemma {:induction false} FrameLengthExact(m: Message, n: nat, more: seq<u8>)
    requires EncodeCheck(m).Ok?
    ensures var b := EncodeFrame(m).value;
            (n < |b| ==> DecodeFrame(b[..n]).Err?) && (more != [] ==> DecodeFrame(b + more).Err?)
  {
    hide Crc, Normal, EncodeFrameHeader, DecodeFrameHeader, ReservedFlag;
    NormalHeader(m);
    var b := FrameBytes(Normal(m));
    assert (b + more)[..FRAME_HEADER] == b[..FRAME_HEADER];
    if FRAME_HEADER <= n < |b| {
      assert b[..n][..FRAME_HEADER] == b[..FRAME_HEADER];
    }
  }

  /** One changed byte anywhere in a frame is refused. */
  lemma {:induction false} FrameByteRefused(m: Message, i: nat, x: u8)
    requires EncodeCheck(m).Ok? && i < |EncodeFrame(m).value| && EncodeFrame(m).value[i] != x
    ensures DecodeFrame(EncodeFrame(m).value[i := x]).Err?
  {
    hide Crc, Normal, EncodeFrameHeader, DecodeFrameHeader, ReservedFlag;
    NormalHeader(m);
    var b := FrameBytes(Normal(m));
    var c := b[i := x];
    if i < FRAME_HEADER {
      assert c[..FRAME_HEADER] == b[..FRAME_HEADER][i := x];
      FrameHeaderDetects(b[..FRAME_HEADER], i, x);
    } else {
      assert c[..FRAME_HEADER] == b[..FRAME_HEADER];
      assert b[FRAME_HEADER..] == m.payload;
      assert c[FRAME_HEADER..] == m.payload[i - FRAME_HEADER := x];
      CrcDetects(m.payload, i - FRAME_HEADER, x);
    }
  }

  lemma {:induction false} FrameHeaderDetects(b: seq<u8>, i: nat, x: u8)
    requires |b| == FRAME_HEADER && i < |b| && b[i] != x && DecodeFrameHeader(b).magic != 0
    ensures DecodeFrameHeader(b[i := x]).magic == 0
  {
    hide FrameCrc, RawFrameHeader, SealOk;
    FrameSeal(b);
    FrameSeal(b[i := x]);
    SealDetects(b, FRAME_SEAL, i, x);
  }

  // ---- The stream -----------------------------------------------------------

  /** What the decoder sees at the head of the bytes it has. */
  datatype Sight = Waiting | Broken(error: FrameError) | Whole(message: Message)

  function Peek(data: seq<u8>, maxPayload: nat): Sight {
    if |data| < FRAME_HEADER then Waiting
    else
      var h := DecodeFrameHeader(data[..FRAME_HEADER]);
      if h.magic != FRAME_MAGIC then Broken(IntegrityFailure)
      else if h.format != FRAME_FORMAT then Broken(Unsupported)
      else if !KnownType(h.kind) then Broken(Malformed)
      else if h.payloadLen > maxPayload then Broken(Oversized)
      else if |data| < FRAME_HEADER + h.payloadLen then Waiting
      else
        match DecodeFrame(data[..FRAME_HEADER + h.payloadLen])
        case Err(e) => Broken(e)
        case Ok(m) => Whole(m)
  }

  /** The head of the stream, once decided, does not change as more bytes arrive. */
  lemma {:induction false} PeekStable(data: seq<u8>, more: seq<u8>, maxPayload: nat)
    requires !Peek(data, maxPayload).Waiting?
    ensures Peek(data + more, maxPayload) == Peek(data, maxPayload)
  {
    hide DecodeFrameHeader, DecodeFrame;
    assert (data + more)[..FRAME_HEADER] == data[..FRAME_HEADER];
    var n := FRAME_HEADER + DecodeFrameHeader(data[..FRAME_HEADER]).payloadLen;
    if n <= |data| {
      assert (data + more)[..n] == data[..n];
    }
  }

  lemma {:induction false} PeekSize(data: seq<u8>, maxPayload: nat)
    requires Peek(data, maxPayload).Whole?
    ensures FRAME_HEADER <= Size(Peek(data, maxPayload).message) <= |data|
  {
    hide DecodeFrameHeader, Crc;
    var n := FRAME_HEADER + DecodeFrameHeader(data[..FRAME_HEADER]).payloadLen;
    assert data[..n][..FRAME_HEADER] == data[..FRAME_HEADER];
  }

  function Size(m: Message): nat {
    FRAME_HEADER + |m.payload|
  }

  datatype Stream = Stream(messages: seq<Message>, used: nat, broken: bool)

  /** Everything a stream of bytes says, frame by frame, up to its end or its break. */
  function Parse(data: seq<u8>, maxPayload: nat): (s: Stream)
    ensures s.used <= |data|
    decreases |data|
  {
    match Peek(data, maxPayload)
    case Waiting => Stream([], 0, false)
    case Broken(_) => Stream([], 0, true)
    case Whole(m) =>
      PeekSize(data, maxPayload);
      var s := Parse(data[Size(m)..], maxPayload);
      Stream([m] + s.messages, Size(m) + s.used, s.broken)
  }

  function Continued(s: Stream, data: seq<u8>, more: seq<u8>, maxPayload: nat): Stream
    requires s.used <= |data|
  {
    if s.broken then s
    else
      var t := Parse(data[s.used..] + more, maxPayload);
      Stream(s.messages + t.messages, s.used + t.used, t.broken)
  }

  /** Parsing a longer stream continues where the shorter one stopped, unless that broke. */
  lemma {:induction false} ParseMore(data: seq<u8>, more: seq<u8>, maxPayload: nat)
    ensures Parse(data + more, maxPayload) == Continued(Parse(data, maxPayload), data, more, maxPayload)
    decreases |data|
  {
    hide Peek;
    var sight := Peek(data, maxPayload);
    if sight.Waiting? {
      assert data[0..] == data;
      var t := Parse(data + more, maxPayload);
      assert [] + t.messages == t.messages;
    } else {
      PeekStable(data, more, maxPayload);
      if sight.Whole? {
        PeekSize(data, maxPayload);
        var n := Size(sight.message);
        ParseStep(data, maxPayload, sight.message);
        ParseStep(data + more, maxPayload, sight.message);
        hide Parse;
        assert (data + more)[n..] == data[n..] + more;
        ParseMore(data[n..], more, maxPayload);
        ContinuedLater(Parse(data[n..], maxPayload), data, more, maxPayload, sight.message);
      }
    }
  }

  lemma {:induction false} ParseStep(data: seq<u8>, maxPayload: nat, m: Message)
    requires Peek(data, maxPayload) == Whole(m) && Size(m) <= |data|
    ensures Parse(data, maxPayload) == After(m, Parse(data[Size(m)..], maxPayload))
  {
    hide Peek;
  }

  function After(m: Message, s: Stream): Stream {
    Stream([m] + s.messages, Size(m) + s.used, s.broken)
  }

  lemma {:induction false} ContinuedLater(s: Stream, data: seq<u8>, more: seq<u8>, maxPayload: nat, m: Message)
    requires Size(m) <= |data| && s.used <= |data| - Size(m)
    ensures After(m, Continued(s, data[Size(m)..], more, maxPayload)) == Continued(After(m, s), data, more, maxPayload)
  {
    hide Parse;
    if !s.broken {
      assert data[Size(m)..][s.used..] == data[Size(m) + s.used..];
      var t := Parse(data[Size(m) + s.used..] + more, maxPayload);
      assert [m] + (s.messages + t.messages) == [m] + s.messages + t.messages;
    }
  }

  /** The bytes of encodable frames, one after another. */
  predicate AllEncodable(ms: seq<Message>) {
    forall m | m in ms :: EncodeCheck(m).Ok?
  }

  function Wire(ms: seq<Message>): seq<u8>
    requires AllEncodable(ms)
  {
    if ms == [] then [] else EncodeFrame(ms[0]).value + Wire(ms[1..])
  }

  function Normals(ms: seq<Message>): seq<Message>
    requires AllEncodable(ms)
  {
    if ms == [] then []
    else
      assert EncodeCheck(ms[0]).Ok?;
      [Normal(ms[0])] + Normals(ms[1..])
  }

  lemma {:induction false} PeekFrame(m: Message, rest: seq<u8>, maxPayload: nat)
    requires EncodeCheck(m).Ok?
    ensures Peek(EncodeFrame(m).value + rest, maxPayload)
         == if |m.payload| > maxPayload then Broken(Oversized) else Whole(Normal(m))
  {
    hide Crc, Normal, EncodeFrameHeader, DecodeFrameHeader, ReservedFlag, DecodeFrame;
    NormalHeader(m);
    FrameRoundTrip(m);
    var b := FrameBytes(Normal(m));
    assert (b + rest)[..FRAME_HEADER] == b[..FRAME_HEADER];
    assert (b + rest)[..|b|] == b;
  }

  /** How many leading frames are within a decoder's payload bound. */
  function Fitting(ms: seq<Message>, maxPayload: nat): (k: nat)
    ensures k <= |ms| && (k == |ms| <==> forall m | m in ms :: |m.payload| <= maxPayload)
  {
    if ms == [] then 0
    else
      assert ms == [ms[0]] + ms[1..];
      if |ms[0].payload| > maxPayload then 0 else 1 + Fitting(ms[1..], maxPayload)
  }

  lemma {:induction false} EncodablePrefix(ms: seq<Message>, k: nat)
    requires AllEncodable(ms) && k <= |ms|
    ensures AllEncodable(ms[..k])
  {
  }

  /** A stream of encodable frames says exactly those frames, with nothing left over, up to
      the first whose payload is beyond the bound. */
  lemma {:induction false} ParseWire(ms: seq<Message>, maxPayload: nat)
    requires AllEncodable(ms)
    ensures AllEncodable(ms[..Fitting(ms, maxPayload)])
    ensures var k := Fitting(ms, maxPayload);
            Parse(Wire(ms), maxPayload) == Stream(Normals(ms[..k]), |Wire(ms[..k])|, k < |ms|)
  {
    hide Peek, EncodeFrame, Normal, EncodeCheck, Size, Parse, Wire, Normals, Fitting, AllEncodable;
    var k := Fitting(ms, maxPayload);
    EncodablePrefix(ms, k);
    if k == 0 {
      NoneFits(ms, maxPayload);
    } else {
      FittingNext(ms, maxPayload);
      ParseWire(ms[1..], maxPayload);
      WireNext(ms, k);
      WireNext(ms, |ms|);
      assert ms[..|ms|] == ms && ms[1..][..|ms| - 1] == ms[1..];
      var first, rest := EncodeFrame(ms[0]).value, Wire(ms[1..]);
      PeekFrame(ms[0], rest, maxPayload);
      FrameSize(ms[0]);
      assert (first + rest)[|first|..] == rest;
      ParseStep(first + rest, maxPayload, Normal(ms[0]));
    }
  }

  lemma {:induction false} NoneFits(ms: seq<Message>, maxPayload: nat)
    requires AllEncodable(ms) && Fitting(ms, maxPayload) == 0
    ensures AllEncodable(ms[..0]) && Normals(ms[..0]) == [] && Wire(ms[..0]) == []
    ensures Parse(Wire(ms), maxPayload) == Stream([], 0, ms != [])
  {
    hide Peek, EncodeFrame, EncodeCheck;
    if ms == [] {
      PeekNothing(maxPayload);
    } else {
      assert ms[0] in ms;
      PeekFrame(ms[0], Wire(ms[1..]), maxPayload);
    }
  }

  lemma {:induction false} FittingNext(ms: seq<Message>, maxPayload: nat)
    requires AllEncodable(ms) && ms != [] && Fitting(ms, maxPayload) > 0
    ensures Fitting(ms, maxPayload) == 1 + Fitting(ms[1..], maxPayload) && |ms[0].payload| <= maxPayload
    ensures EncodeCheck(ms[0]).Ok? && |ms[0].payload| <= MAX_FRAME_PAYLOAD && AllEncodable(ms[1..])
  {
    assert ms[0] in ms && forall m | m in ms[1..] :: m in ms;
  }

  lemma {:induction false} WireNext(ms: seq<Message>, k: nat)
    requires AllEncodable(ms) && 0 < k <= |ms| && EncodeCheck(ms[0]).Ok?
    ensures AllEncodable(ms[..k]) && AllEncodable(ms[1..][..k - 1])
    ensures Wire(ms[..k]) == EncodeFrame(ms[0]).value + Wire(ms[1..][..k - 1])
    ensures Normals(ms[..k]) == [Normal(ms[0])] + Normals(ms[1..][..k - 1])
  {
    hide EncodeFrame, Normal, EncodeCheck;
    assert ms[..k][0] == ms[0] && ms[..k][1..] == ms[1..][..k - 1];
  }

  lemma {:induction false} PeekNothing(maxPayload: nat)
    ensures Peek([], maxPayload) == Waiting
  {
  }

  lemma {:induction false} FrameSize(m: Message)
    requires EncodeCheck(m).Ok?
    ensures |EncodeFrame(m).value| == Size(Normal(m))
  {
  }

  // ---- The decoder ----------------------------------------------------------

  datatype Options = Options(maxPayload: nat, maxBuffered: nat)

  /** Bytes pushed and not yet cleared, how many of them are consumed, and whether the
      stream has failed. */
  datatype Decoder = Decoder(buffer: seq<u8>, consumed: nat, failed: bool)

  const START := Decoder([], 0, false)

  predicate DecoderOk(d: Decoder) {
    d.consumed <= |d.buffer|
  }

  function Pending(d: Decoder): seq<u8>
    requires DecoderOk(d)
  {
    d.buffer[d.consumed..]
  }

  function Cleared(d: Decoder): (r: Decoder)
    requires DecoderOk(d)
    ensures DecoderOk(r)
  {
    if d.consumed > 0 && d.consumed == |d.buffer| then d.(buffer := [], consumed := 0) else d
  }

  /** The bound counts consumed bytes that are still in the buffer. */
  predicate Accepts(d: Decoder, bytes: seq<u8>, o: Options)
    requires DecoderOk(d)
  {
    !d.failed && |Cleared(d).buffer| + |bytes| <= o.maxBuffered
  }

  function Pushed(d: Decoder, bytes: seq<u8>, o: Options): (r: Decoder)
    requires DecoderOk(d)
    ensures DecoderOk(r)
  {
    if d.failed then d
    else
      var c := Cleared(d);
      if |c.buffer| + |bytes| > o.maxBuffered then c.(failed := true) else c.(buffer := c.buffer + bytes)
  }

  /** A push, both ways: it fails exactly a decoder that has failed or would hold more than
      its bound, bytes already consumed counted unless nothing else is left; otherwise the
      bytes are added to what is pending. */
  lemma {:induction false} PushExact(d: Decoder, bytes: seq<u8>, o: Options)
    requires DecoderOk(d)
    ensures var r := Pushed(d, bytes, o);
            var held := if d.consumed == |d.buffer| then 0 else |d.buffer|;
            && (r.failed <==> d.failed || held + |bytes| > o.maxBuffered)
            && (!r.failed ==> Pending(r) == Pending(d) + bytes && |r.buffer| == held + |bytes|)
            && (Accepts(d, bytes, o) <==> !r.failed)
  {
  }

  datatype Pull = Nothing | Refused(error: FrameError) | Got(message: Message)

  function NextPull(d: Decoder, o: Options): Pull
    requires DecoderOk(d)
  {
    if d.failed then Refused(Malformed)
    else
      match Peek(Pending(d), o.maxPayload)
      case Waiting => Nothing
      case Broken(e) => Refused(e)
      case Whole(m) => Got(m)
  }

  function AfterNext(d: Decoder, o: Options): (r: Decoder)
    requires DecoderOk(d)
    ensures DecoderOk(r)
  {
    match NextPull(d, o)
    case Nothing => d
    case Refused(_) => d.(failed := true)
    case Got(m) =>
      PeekSize(Pending(d), o.maxPayload);
      d.(consumed := d.consumed + Size(m))
  }

  class FrameDecoder {
    const options: Options
    var buffer: seq<u8>
    var consumed: nat
    var failed: bool

    ghost predicate Valid()
      reads this
    {
      DecoderOk(State())
    }

    ghost function State(): Decoder
      reads this
    {
      Decoder(buffer, consumed, failed)
    }

    constructor (opts: Options)
      ensures Valid() && State() == START && options == opts
    {
      options := opts;
      buffer := [];
      consumed := 0;
      failed := false;
    }

    method Push(bytes: seq<u8>) returns (accepted: bool)
      requires Valid()
      modifies this
      ensures Valid() && State() == Pushed(old(State()), bytes, options)
      ensures accepted == Accepts(old(State()), bytes, options)
    {
      if failed {
        return false;
      }
      if consumed > 0 && consumed == |buffer| {
        buffer := [];
        consumed := 0;
      }
      if |buffer| + |bytes| > options.maxBuffered {
        failed := true;
        return false;
      }
      buffer := buffer + bytes;
      accepted := true;
    }

    method Next() returns (r: Pull)
      requires Valid()
      modifies this`consumed, this`failed
      ensures Valid() && r == NextPull(old(State()), options) && State() == AfterNext(old(State()), options)
    {
      hide DecodeFrameHeader, DecodeFrame;
      if failed {
        return Refused(Malformed);
      }
      var available := |buffer| - consumed;
      if available < FRAME_HEADER {
        return Nothing;
      }
      var data := buffer[consumed..];
      var header := DecodeFrameHeader(data[..FRAME_HEADER]);
      if header.magic != FRAME_MAGIC {
        failed := true;
        return Refused(IntegrityFailure);
      }
      if header.format != FRAME_FORMAT {
        failed := true;
        return Refused(Unsupported);
      }
      if !KnownType(header.kind) {
        failed := true;
        return Refused(Malformed);
      }
      if header.payloadLen > options.maxPayload {
        failed := true;
        return Refused(Oversized);
      }
      var total := FRAME_HEADER + header.payloadLen;
      if available < total {
        return Nothing;
      }
      var frame := DecodeFrame(data[..total]);
      if frame.Err? {
        failed := true;
        return Refused(frame.error);
      }
      DecodedSize(data[..total]);
      assert data[..total][..FRAME_HEADER] == data[..FRAME_HEADER];
      consumed := consumed + total;
      r := Got(frame.value);
    }

    method Reset()
      modifies this
      ensures State() == START && Valid()
    {
      buffer := [];
      consumed := 0;
      failed := false;
    }

    /** Pull frames until there is none. */
    method Drain() returns (messages: seq<Message>)
      requires Valid()
      modifies this`consumed, this`failed
      ensures Valid() && State() == Drained(old(State()), options).decoder
      ensures messages == Drained(old(State()), options).messages
    {
      hide NextPull, AfterNext;
      messages := [];
      ghost var whole := Drained(State(), options);
      var pull := Got(Message(FrameHeader(0, 0, 0, 0, 0, 0, 0, 0, 0, 0, 0, 0, 0, 0, 0, 0), []));
      while pull.Got?
        invariant Valid()
        invariant pull.Got? ==>
                    var d := Drained(State(), options);
                    whole == Yield(d.decoder, messages + d.messages)
        invariant !pull.Got? ==> whole == Yield(State(), messages)
        decreases |buffer| - consumed, pull.Got?
      {
        DrainStep(State(), options);
        pull := Next();
        if pull.Got? {
          messages := messages + [pull.message];
        }
      }
    }
  }

  lemma {:induction false} DecodedSize(b: seq<u8>)
    requires DecodeFrame(b).Ok?
    ensures |b| >= FRAME_HEADER && Size(DecodeFrame(b).value) == |b|
  {
    hide DecodeFrameHeader, Crc;
  }

  datatype Yield = Yield(decoder: Decoder, messages: seq<Message>)

  /** `next` called until it yields nothing. */
  function Drained(d: Decoder, o: Options): (r: Yield)
    requires DecoderOk(d)
    ensures DecoderOk(r.decoder)
    decreases |d.buffer| - d.consumed
  {
    match NextPull(d, o)
    case Nothing => Yield(d, [])
    case Refused(_) => Yield(d.(failed := true), [])
    case Got(m) =>
      PeekSize(Pending(d), o.maxPayload);
      var r := Drained(AfterNext(d, o), o);
      Yield(r.decoder, [m] + r.messages)
  }

  lemma {:induction false} DrainStep(d: Decoder, o: Options)
    requires DecoderOk(d)
    ensures AfterNext(d, o).buffer == d.buffer
    ensures NextPull(d, o).Got? ==>
              && Drained(d, o) == Yield(Drained(AfterNext(d, o), o).decoder,
                                        [NextPull(d, o).message] + Drained(AfterNext(d, o), o).messages)
              && AfterNext(d, o).consumed > d.consumed
    ensures !NextPull(d, o).Got? ==> Drained(d, o) == Yield(AfterNext(d, o), [])
  {
    hide Peek;
    if NextPull(d, o).Got? {
      PeekSize(Pending(d), o.maxPayload);
    }
  }

  /** Draining says what the pending bytes say, and leaves what was not used. */
  lemma {:induction false} DrainParses(d: Decoder, o: Options)
    requires DecoderOk(d) && !d.failed
    ensures var r := Drained(d, o); var s := Parse(Pending(d), o.maxPayload);
            && r.messages == s.messages && r.decoder.failed == s.broken
            && (!s.broken ==> Pending(r.decoder) == Pending(d)[s.used..])
    decreases |d.buffer| - d.consumed
  {
    hide Peek;
    var sight := Peek(Pending(d), o.maxPayload);
    DrainStep(d, o);
    if sight.Whole? {
      PeekSize(Pending(d), o.maxPayload);
      ParseStep(Pending(d), o.maxPayload, sight.message);
      hide Drained, Parse;
      var n := Size(sight.message);
      var e := AfterNext(d, o);
      assert Pending(e) == Pending(d)[n..];
      DrainParses(e, o);
      var s := Parse(Pending(e), o.maxPayload);
      assert !s.broken ==> Pending(d)[n..][s.used..] == Pending(d)[n + s.used..];
    }
  }

  // ---- Chunk independence ---------------------------------------------------

  function Concat(chunks: seq<seq<u8>>): seq<u8> {
    if chunks == [] then [] else chunks[0] + Concat(chunks[1..])
  }

  /** Push each chunk and drain the decoder after it. */
  function Fed(d: Decoder, chunks: seq<seq<u8>>, o: Options): (r: Yield)
    requires DecoderOk(d)
    ensures DecoderOk(r.decoder)
    decreases |chunks|
  {
    if chunks == [] then Yield(d, [])
    else
      var r := Drained(Pushed(d, chunks[0], o), o);
      var rest := Fed(r.decoder, chunks[1..], o);
      Yield(rest.decoder, r.messages + rest.messages)
  }

  /** No push overflows the buffer bound while the stream is good. */
  predicate NeverFull(d: Decoder, chunks: seq<seq<u8>>, o: Options)
    requires DecoderOk(d)
    decreases |chunks|
  {
    chunks == [] || d.failed
    || (Accepts(d, chunks[0], o) && NeverFull(Drained(Pushed(d, chunks[0], o), o).decoder, chunks[1..], o))
  }

  /** A failed decoder emits nothing, whatever is pushed, until it is reset. */
  lemma {:induction false} FailStop(d: Decoder, chunks: seq<seq<u8>>, o: Options)
    requires DecoderOk(d) && d.failed
    ensures Fed(d, chunks, o) == Yield(d, [])
    decreases |chunks|
  {
    if chunks != [] {
      assert Pushed(d, chunks[0], o) == d;
      assert Drained(d, o) == Yield(d, []);
      FailStop(d, chunks[1..], o);
    }
  }

  predicate IsPrefix(x: seq<Message>, y: seq<Message>) {
    |x| <= |y| && x == y[..|x|]
  }

  /** The frames emitted are a prefix of what the bytes say; and if no push overflows
      they are all of it, and the decoder fails exactly when the bytes are broken. */
  predicate Faithful(r: Yield, data: seq<u8>, s: Stream, full: bool)
    requires DecoderOk(r.decoder) && s.used <= |data|
  {
    && IsPrefix(r.messages, s.messages)
    && (full ==>
          && r.messages == s.messages && r.decoder.failed == s.broken
          && (!s.broken ==> Pending(r.decoder) == data[s.used..]))
  }

  /** However a stream is cut, what comes out is faithful to its bytes. */
  lemma {:induction false} FedParses(d: Decoder, chunks: seq<seq<u8>>, o: Options)
    requires DecoderOk(d) && !d.failed && Peek(Pending(d), o.maxPayload).Waiting?
    ensures var data := Pending(d) + Concat(chunks);
            Faithful(Fed(d, chunks, o), data, Parse(data, o.maxPayload), NeverFull(d, chunks, o))
    decreases |chunks|
  {
    hide Peek, Drained, Pushed, Cleared, Pending, Faithful;
    if chunks == [] {
      FaithfulNothing(d, o);
    } else {
      var more := Concat(chunks[1..]);
      var pushed := Pushed(d, chunks[0], o);
      var data := Pending(d) + chunks[0];
      assert Pending(d) + (chunks[0] + more) == data + more;
      PushedPending(d, chunks[0], o);
      if Accepts(d, chunks[0], o) {
        ParseMore(data, more, o.maxPayload);
        DrainParses(pushed, o);
        var r := Drained(pushed, o);
        if r.decoder.failed {
          FailStop(r.decoder, chunks[1..], o);
        } else {
          ParseEnds(data, o.maxPayload);
          FedParses(r.decoder, chunks[1..], o);
        }
        FaithfulMore(r, Fed(r.decoder, chunks[1..], o), data, more, o, NeverFull(r.decoder, chunks[1..], o));
      } else {
        FailedDrain(pushed, o);
        FailStop(pushed, chunks[1..], o);
        FaithfulOverflow(pushed, data + more, o);
      }
    }
  }

  lemma {:induction false} FaithfulNothing(d: Decoder, o: Options)
    requires DecoderOk(d) && !d.failed && Peek(Pending(d), o.maxPayload).Waiting?
    ensures var data := Pending(d) + [];
            Faithful(Yield(d, []), data, Parse(data, o.maxPayload), true)
  {
    hide Peek;
    assert Pending(d) + [] == Pending(d);
    assert Pending(d)[0..] == Pending(d);
  }

  lemma {:induction false} FaithfulOverflow(d: Decoder, data: seq<u8>, o: Options)
    requires DecoderOk(d)
    ensures Faithful(Yield(d, [] + []), data, Parse(data, o.maxPayload), false)
  {
  }

  lemma {:induction false} FaithfulMore(r: Yield, rest: Yield, data: seq<u8>, more: seq<u8>, o: Options, full: bool)
    requires DecoderOk(r.decoder) && DecoderOk(rest.decoder)
    requires var s := Parse(data, o.maxPayload);
             && r.messages == s.messages && r.decoder.failed == s.broken
             && (!s.broken ==> Pending(r.decoder) == data[s.used..])
             && if s.broken then rest == Yield(r.decoder, [])
                else Faithful(rest, data[s.used..] + more, Parse(data[s.used..] + more, o.maxPayload), full)
    ensures var t := Continued(Parse(data, o.maxPayload), data, more, o.maxPayload);
            t.used <= |data + more| && Faithful(Yield(rest.decoder, r.messages + rest.messages), data + more, t, full)
  {
    hide Parse;
    var s := Parse(data, o.maxPayload);
    if s.broken {
      assert r.messages + [] == r.messages;
    } else {
      var t := Parse(data[s.used..] + more, o.maxPayload);
      assert (data + more)[s.used + t.used..] == (data[s.used..] + more)[t.used..];
      assert (s.messages + t.messages)[..|r.messages + rest.messages|] == s.messages + t.messages[..|rest.messages|];
    }
  }

  lemma {:induction false} FailedDrain(d: Decoder, o: Options)
    requires DecoderOk(d) && d.failed
    ensures Drained(d, o) == Yield(d, [])
  {
  }

  lemma {:induction false} PushedPending(d: Decoder, bytes: seq<u8>, o: Options)
    requires DecoderOk(d) && !d.failed
    ensures var p := Pushed(d, bytes, o);
            if Accepts(d, bytes, o) then !p.failed && Pending(p) == Pending(d) + bytes else p.failed
  {
  }

  /** Where a parse stopped without breaking, it is waiting for more. */
  lemma {:induction false} ParseEnds(data: seq<u8>, maxPayload: nat)
    requires !Parse(data, maxPayload).broken
    ensures Peek(data[Parse(data, maxPayload).used..], maxPayload).Waiting?
    decreases |data|
  {
    hide Peek;
    var sight := Peek(data, maxPayload);
    if sight.Whole? {
      PeekSize(data, maxPayload);
      var n := Size(sight.message);
      ParseEnds(data[n..], maxPayload);
      assert data[n..][Parse(data[n..], maxPayload).used..] == data[Parse(data, maxPayload).used..];
    } else {
      assert data[0..] == data;
    }
  }

  /** The frames that come out of a fresh decoder do not depend on how the bytes are cut. */
  lemma {:induction false} ChunkIndependence(d: Decoder, x: seq<seq<u8>>, y: seq<seq<u8>>, o: Options)
    requires d == START && Concat(x) == Concat(y) && NeverFull(d, x, o) && NeverFull(d, y, o)
    ensures Fed(d, x, o).messages == Fed(d, y, o).messages
    ensures Fed(d, x, o).decoder.failed == Fed(d, y, o).decoder.failed
  {
    hide Parse, Fed, NeverFull, Peek, Concat;
    PeekNothing(o.maxPayload);
    FedParses(d, x, o);
    FedParses(d, y, o);
  }

  /** Any cutting of encodable frames yields exactly those frames, in order and
      normalised, with nothing left buffered; or, when some payload is beyond the decoder's
      bound, the frames before the first such, and failure. */
  lemma {:induction false} FramesComeThrough(d: Decoder, ms: seq<Message>, chunks: seq<seq<u8>>, o: Options)
    requires d == START && AllEncodable(ms) && Concat(chunks) == Wire(ms) && NeverFull(d, chunks, o)
    ensures AllEncodable(ms[..Fitting(ms, o.maxPayload)])
    ensures var r, k := Fed(d, chunks, o), Fitting(ms, o.maxPayload);
            && r.messages == Normals(ms[..k]) && (r.decoder.failed <==> k < |ms|)
            && (k == |ms| ==> r.messages == Normals(ms) && Pending(r.decoder) == [])
  {
    hide Parse, Fed, NeverFull, Wire, Peek, Concat, AllEncodable, Normals;
    PeekNothing(o.maxPayload);
    FedParses(d, chunks, o);
    ParseWire(ms, o.maxPayload);
    assert [] + Wire(ms) == Wire(ms);
    assert ms[..|ms|] == ms;
  }
}
