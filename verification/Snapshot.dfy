/** The snapshot container: a sealed header, a run of records, and a sealed footer
    that repeats the accounting (src/durability/snapshot.cpp). */
module Snapshot {
  import opened Words
  import opened Crc32c
  import opened Sealed
  import opened Journal

  const SNAPSHOT_MAGIC: u32 := 0x4E43_4653
  const FOOTER_MAGIC: u32 := 0x4E43_4645
  const SNAP_HEADER: nat := 72
  const SNAP_FOOTER: nat := 32
  const MAX_SNAPSHOT_BYTES: nat := 0x8000_0000
  const NO_LIMIT: nat := 0xFFFF_FFFF

  datatype SnapHeader = SnapHeader(
    magic: u32, format: u16, reserved: u16, headerCrc: u32, reserved2: u32,
    epoch: u64, boot: u64, bootCounter: u64, lastSequence: u64, recordCount: u64, payloadBytes: u64,
    payloadCrc: u32, reserved3: u32)

  datatype SnapFooter = SnapFooter(
    magic: u32, footerCrc: u32, recordCount: u64, payloadBytes: u64, payloadCrc: u32, reserved: u32)

  // ---- Header and footer codecs ---------------------------------------------

  const HEADER_WIDTHS: seq<Width> :=
    [Four, Two, Two, Four, Four, Eight, Eight, Eight, Eight, Eight, Eight, Four, Four]
  const FOOTER_WIDTHS: seq<Width> := [Four, Four, Eight, Eight, Four, Four]
  const HEADER_SEAL_WORD: nat := 3
  const FOOTER_SEAL_WORD: nat := 1
  const HEADER_SEAL: nat := 8
  const FOOTER_SEAL: nat := 4

  lemma {:induction false} SnapOffsets()
    ensures Offset(HEADER_WIDTHS, |HEADER_WIDTHS|) == SNAP_HEADER
    ensures Offset(HEADER_WIDTHS, HEADER_SEAL_WORD) == HEADER_SEAL
    ensures Offset(FOOTER_WIDTHS, |FOOTER_WIDTHS|) == SNAP_FOOTER
    ensures Offset(FOOTER_WIDTHS, FOOTER_SEAL_WORD) == FOOTER_SEAL
  {
    HeaderOffsets();
    FooterOffsets();
  }

  lemma {:induction false} HeaderOffsets()
    ensures Offset(HEADER_WIDTHS, |HEADER_WIDTHS|) == SNAP_HEADER
    ensures Offset(HEADER_WIDTHS, HEADER_SEAL_WORD) == HEADER_SEAL
  {
    hide Offset;
    var ks := HEADER_WIDTHS;
    OffsetSteps(ks);
    assert ks[0].Size() == 4 && ks[1].Size() == 2 && ks[2].Size() == 2 && ks[3].Size() == 4 && ks[4].Size() == 4;
    assert Offset(ks, 5) == 16;
    assert ks[5].Size() == 8 && ks[6].Size() == 8 && ks[7].Size() == 8 && ks[8].Size() == 8;
    assert Offset(ks, 9) == 48;
    assert ks[9].Size() == 8 && ks[10].Size() == 8 && ks[11].Size() == 4 && ks[12].Size() == 4;
  }

  lemma {:induction false} FooterOffsets()
    ensures Offset(FOOTER_WIDTHS, |FOOTER_WIDTHS|) == SNAP_FOOTER
    ensures Offset(FOOTER_WIDTHS, FOOTER_SEAL_WORD) == FOOTER_SEAL
  {
    hide Offset;
    var ks := FOOTER_WIDTHS;
    OffsetSteps(ks);
    assert ks[0].Size() == 4 && ks[1].Size() == 4 && ks[2].Size() == 8;
    assert ks[3].Size() == 8 && ks[4].Size() == 4 && ks[5].Size() == 4;
  }

  function SnapHeaderWords(h: SnapHeader): (ws: seq<Word>)
    ensures Shaped(HEADER_WIDTHS, ws)
  {
    [W4(h.magic), W2(h.format), W2(h.reserved), W4(h.headerCrc), W4(h.reserved2), W8(h.epoch), W8(h.boot),
     W8(h.bootCounter), W8(h.lastSequence), W8(h.recordCount), W8(h.payloadBytes), W4(h.payloadCrc), W4(h.reserved3)]
  }

  function SnapHeaderOf(ws: seq<Word>): (h: SnapHeader)
    requires Shaped(HEADER_WIDTHS, ws)
    ensures SnapHeaderWords(h) == ws
  {
    assert forall i | 0 <= i < 13 :: WidthOf(ws[i]) == HEADER_WIDTHS[i];
    SnapHeader(ws[0].n4, ws[1].n2, ws[2].n2, ws[3].n4, ws[4].n4, ws[5].n8, ws[6].n8,
               ws[7].n8, ws[8].n8, ws[9].n8, ws[10].n8, ws[11].n4, ws[12].n4)
  }

  function FooterWords(f: SnapFooter): (ws: seq<Word>)
    ensures Shaped(FOOTER_WIDTHS, ws)
  {
    [W4(f.magic), W4(f.footerCrc), W8(f.recordCount), W8(f.payloadBytes), W4(f.payloadCrc), W4(f.reserved)]
  }

  function FooterOf(ws: seq<Word>): (f: SnapFooter)
    requires Shaped(FOOTER_WIDTHS, ws)
    ensures FooterWords(f) == ws
  {
    assert forall i | 0 <= i < 6 :: WidthOf(ws[i]) == FOOTER_WIDTHS[i];
    SnapFooter(ws[0].n4, ws[1].n4, ws[2].n8, ws[3].n8, ws[4].n4, ws[5].n4)
  }

  function EncodeSnapHeader(h: SnapHeader): (b: seq<u8>)
    ensures |b| == SNAP_HEADER
  {
    SnapOffsets();
    Pack(HEADER_WIDTHS, SnapHeaderWords(h))
  }

  function EncodeFooter(f: SnapFooter): (b: seq<u8>)
    ensures |b| == SNAP_FOOTER
  {
    SnapOffsets();
    Pack(FOOTER_WIDTHS, FooterWords(f))
  }

  function HeaderCrcOf(h: SnapHeader): u32 {
    Crc(EncodeSnapHeader(h.(headerCrc := 0)))
  }

  function FooterCrcOf(f: SnapFooter): u32 {
    Crc(EncodeFooter(f.(footerCrc := 0)))
  }

  function RawSnapHeader(b: seq<u8>): (h: SnapHeader)
    requires |b| == SNAP_HEADER
    ensures EncodeSnapHeader(h) == b
  {
    SnapOffsets();
    PackUnpack(HEADER_WIDTHS, b);
    SnapHeaderOf(Unpack(HEADER_WIDTHS, b))
  }

  function RawFooter(b: seq<u8>): (f: SnapFooter)
    requires |b| == SNAP_FOOTER
    ensures EncodeFooter(f) == b
  {
    SnapOffsets();
    PackUnpack(FOOTER_WIDTHS, b);
    FooterOf(Unpack(FOOTER_WIDTHS, b))
  }

  function DecodeSnapHeader(b: seq<u8>): SnapHeader
    requires |b| == SNAP_HEADER
  {
    var h := RawSnapHeader(b);
    if HeaderCrcOf(h) != h.headerCrc then h.(magic := 0) else h
  }

  function DecodeFooter(b: seq<u8>): SnapFooter
    requires |b| == SNAP_FOOTER
  {
    var f := RawFooter(b);
    if FooterCrcOf(f) != f.footerCrc then f.(magic := 0) else f
  }

  lemma {:induction false} SnapHeaderRoundTrip(h: SnapHeader)
    requires h.headerCrc == HeaderCrcOf(h)
    ensures DecodeSnapHeader(EncodeSnapHeader(h)) == h
  {
    SnapOffsets();
    UnpackPack(HEADER_WIDTHS, SnapHeaderWords(h));
  }

  lemma {:induction false} FooterRoundTrip(f: SnapFooter)
    requires f.footerCrc == FooterCrcOf(f)
    ensures DecodeFooter(EncodeFooter(f)) == f
  {
    SnapOffsets();
    UnpackPack(FOOTER_WIDTHS, FooterWords(f));
  }

  lemma {:induction false} BlankWords(h: SnapHeader, f: SnapFooter)
    ensures SnapHeaderWords(h)[HEADER_SEAL_WORD := Zero(Four)] == SnapHeaderWords(h.(headerCrc := 0))
    ensures SnapHeaderWords(h)[HEADER_SEAL_WORD] == W4(h.headerCrc) && HEADER_WIDTHS[HEADER_SEAL_WORD] == Four
    ensures FooterWords(f)[FOOTER_SEAL_WORD := Zero(Four)] == FooterWords(f.(footerCrc := 0))
    ensures FooterWords(f)[FOOTER_SEAL_WORD] == W4(f.footerCrc) && FOOTER_WIDTHS[FOOTER_SEAL_WORD] == Four
  {
  }

  lemma {:induction false} SnapHeaderSeal(b: seq<u8>)
    requires |b| == SNAP_HEADER
    ensures HeaderCrcOf(RawSnapHeader(b)) == RawSnapHeader(b).headerCrc <==> SealOk(b, HEADER_SEAL)
  {
    hide SnapHeaderWords, SnapHeaderOf, Crc;
    SnapOffsets();
    var h := RawSnapHeader(b);
    PackUnpack(HEADER_WIDTHS, b);
    PackZeroed(HEADER_WIDTHS, b, HEADER_SEAL_WORD);
    UnpackAt(HEADER_WIDTHS, b, HEADER_SEAL_WORD);
    UnLe32(h.headerCrc);
    BlankWords(h, SnapFooter(0, 0, 0, 0, 0, 0));
  }

  lemma {:induction false} FooterSeal(b: seq<u8>)
    requires |b| == SNAP_FOOTER
    ensures FooterCrcOf(RawFooter(b)) == RawFooter(b).footerCrc <==> SealOk(b, FOOTER_SEAL)
  {
    hide FooterWords, FooterOf, Crc;
    SnapOffsets();
    var f := RawFooter(b);
    PackUnpack(FOOTER_WIDTHS, b);
    PackZeroed(FOOTER_WIDTHS, b, FOOTER_SEAL_WORD);
    UnpackAt(FOOTER_WIDTHS, b, FOOTER_SEAL_WORD);
    UnLe32(f.footerCrc);
    BlankWords(SnapHeader(0, 0, 0, 0, 0, 0, 0, 0, 0, 0, 0, 0, 0), f);
  }

  // ---- Writing --------------------------------------------------------------

  datatype SnapError = Truncated | IntegrityFailure | Unsupported | Oversized | Malformed | LimitExceeded

  datatype Result<T> = Ok(value: T) | Err(error: SnapError)

  datatype Contents = Contents(header: SnapHeader, records: seq<Record>)

  /** A record as the container stores it: framing fields recomputed from its payload. */
  function Framed(r: Record): (f: Record)
    requires |r.payload| <= MAX_RECORD_BYTES
    ensures Whole(f, MAX_RECORD_BYTES) && Whole(f, NO_LIMIT) && f.payload == r.payload
  {
    var h := r.header.(magic := RECORD_MAGIC, format := FORMAT_VERSION,
                       payloadLen := |r.payload|, payloadCrc := Crc(r.payload), headerCrc := 0);
    Record(h.(headerCrc := ComputedCrc(h)), r.payload)
  }

  function FramedAll(rs: seq<Record>): (fs: seq<Record>)
    requires forall r | r in rs :: |r.payload| <= MAX_RECORD_BYTES
    ensures |fs| == |rs| && AllWhole(fs, MAX_RECORD_BYTES) && AllWhole(fs, NO_LIMIT)
    ensures forall i | 0 <= i < |rs| :: fs[i] == Framed(rs[i])
  {
    if rs == [] then [] else [Framed(rs[0])] + FramedAll(rs[1..])
  }

  function PayloadBytes(rs: seq<Record>): nat {
    if rs == [] then 0 else |rs[0].payload| + PayloadBytes(rs[1..])
  }

  /** The checksum rolled over the payloads in order. */
  function Rolling(seed: u32, rs: seq<Record>): u32
    decreases |rs|
  {
    if rs == [] then seed else Rolling(Continue(seed, rs[0].payload), rs[1..])
  }

  function FinalHeader(h: SnapHeader, count: u64, bytes: u64, crc: u32): (f: SnapHeader)
    ensures f.headerCrc == HeaderCrcOf(f)
  {
    var g := h.(magic := SNAPSHOT_MAGIC, format := FORMAT_VERSION, recordCount := count, payloadBytes := bytes,
                payloadCrc := crc, headerCrc := 0);
    g.(headerCrc := HeaderCrcOf(g))
  }

  function FinalFooter(count: u64, bytes: u64, crc: u32): (f: SnapFooter)
    ensures f.footerCrc == FooterCrcOf(f)
  {
    var g := SnapFooter(FOOTER_MAGIC, 0, count, bytes, crc, 0);
    g.(footerCrc := FooterCrcOf(g))
  }

  function ContainerSize(rs: seq<Record>): nat {
    SNAP_HEADER + HEADER_SIZE * |rs| + PayloadBytes(rs) + SNAP_FOOTER
  }

  /** The bytes of a container holding already framed records. */
  function Container(h: SnapHeader, fs: seq<Record>): seq<u8>
    requires |fs| <= MAX_U64 && PayloadBytes(fs) <= MAX_U64
  {
    var crc := Rolling(0, fs);
    EncodeSnapHeader(FinalHeader(h, |fs|, PayloadBytes(fs), crc)) + Flat(fs)
    + EncodeFooter(FinalFooter(|fs|, PayloadBytes(fs), crc))
  }

  // ---- Reading --------------------------------------------------------------

  /** Read exactly `count` records from the body; bytes left over are malformed. */
  function ReadRecords(body: seq<u8>, count: nat): Result<seq<Record>>
    decreases count
  {
    if count == 0 then
      if body == [] then Ok([]) else Err(Malformed)
    else
      match Look(body, NO_LIMIT)
      case Torn => Err(Truncated)
      case Refused(unsupported) => Err(if unsupported then Unsupported else IntegrityFailure)
      case Seen(r) =>
        LookExact(body, NO_LIMIT);
        match ReadRecords(body[|Bytes(r)|..], count - 1)
        case Err(e) => Err(e)
        case Ok(rs) => Ok([r] + rs)
  }

  function Read(data: seq<u8>, maxRecords: nat, maxBytes: nat): Result<Contents> {
    if |data| > maxBytes then Err(Oversized)
    else if |data| < SNAP_HEADER + SNAP_FOOTER then Err(Truncated)
    else
      var header := DecodeSnapHeader(data[..SNAP_HEADER]);
      if header.magic != SNAPSHOT_MAGIC then Err(IntegrityFailure)
      else if header.format != FORMAT_VERSION then Err(Unsupported)
      else
        var footer := DecodeFooter(data[|data| - SNAP_FOOTER..]);
        if footer.magic != FOOTER_MAGIC then Err(Truncated)
        else if footer.recordCount != header.recordCount || footer.payloadBytes != header.payloadBytes
                || footer.payloadCrc != header.payloadCrc then Err(IntegrityFailure)
        else if header.recordCount > maxRecords then Err(Oversized)
        else
          match ReadRecords(data[SNAP_HEADER..|data| - SNAP_FOOTER], header.recordCount)
          case Err(e) => Err(e)
          case Ok(rs) =>
            if PayloadBytes(rs) != header.payloadBytes || Rolling(0, rs) != header.payloadCrc
            then Err(IntegrityFailure)
            else Ok(Contents(header, rs))
  }

  // ---- The written container reads back -------------------------------------

  lemma {:induction false} ReadWhole(fs: seq<Record>)
    requires AllWhole(fs, NO_LIMIT)
    ensures ReadRecords(Flat(fs), |fs|) == Ok(fs)
  {
    hide Bytes, Look, Whole;
    if fs != [] {
      var rest := Flat(fs[1..]);
      LookWhole(fs[0], rest, NO_LIMIT);
      assert (Bytes(fs[0]) + rest)[|Bytes(fs[0])|..] == rest;
      ReadWhole(fs[1..]);
      assert [fs[0]] + fs[1..] == fs;
    }
  }

  /** A strict prefix of the body never yields all its records. */
  lemma {:induction false} ReadPrefix(fs: seq<Record>, n: nat)
    requires AllWhole(fs, NO_LIMIT) && n < |Flat(fs)|
    ensures ReadRecords(Flat(fs)[..n], |fs|).Err?
  {
    hide Bytes, Look, Whole;
    var first, rest := Bytes(fs[0]), Flat(fs[1..]);
    if n < |first| {
      assert Flat(fs)[..n] == first[..n];
      LookTorn(fs[0], n, NO_LIMIT);
    } else {
      assert Flat(fs)[..n] == first + rest[..n - |first|];
      LookWhole(fs[0], rest[..n - |first|], NO_LIMIT);
      assert (first + rest[..n - |first|])[|first|..] == rest[..n - |first|];
      ReadPrefix(fs[1..], n - |first|);
    }
  }

  lemma {:induction false} FlatSize(fs: seq<Record>)
    ensures |Flat(fs)| == HEADER_SIZE * |fs| + PayloadBytes(fs)
  {
    if fs != [] {
      FlatSize(fs[1..]);
    }
  }

  lemma {:induction false} FramedPayloads(rs: seq<Record>)
    requires forall r | r in rs :: |r.payload| <= MAX_RECORD_BYTES
    ensures PayloadBytes(FramedAll(rs)) == PayloadBytes(rs)
  {
    if rs != [] {
      FramedPayloads(rs[1..]);
    }
  }

  lemma {:induction false} ContainerParts(h: SnapHeader, fs: seq<Record>)
    requires |fs| <= MAX_U64 && PayloadBytes(fs) <= MAX_U64
    ensures var c := Container(h, fs);
            && |c| == SNAP_HEADER + |Flat(fs)| + SNAP_FOOTER
            && c[..SNAP_HEADER] == EncodeSnapHeader(FinalHeader(h, |fs|, PayloadBytes(fs), Rolling(0, fs)))
            && c[SNAP_HEADER..|c| - SNAP_FOOTER] == Flat(fs)
            && c[|c| - SNAP_FOOTER..] == EncodeFooter(FinalFooter(|fs|, PayloadBytes(fs), Rolling(0, fs)))
  {
    hide EncodeSnapHeader, EncodeFooter, FinalHeader, FinalFooter, Rolling;
  }

  /** The whole container reads back to its header and records. */
  lemma {:induction false} ReadBack(h: SnapHeader, fs: seq<Record>, maxRecords: nat, maxBytes: nat)
    requires AllWhole(fs, NO_LIMIT) && |fs| <= maxRecords && |fs| <= MAX_U64 && PayloadBytes(fs) <= MAX_U64
    requires SNAP_HEADER + |Flat(fs)| + SNAP_FOOTER <= maxBytes
    ensures Read(Container(h, fs), maxRecords, maxBytes)
         == Ok(Contents(FinalHeader(h, |fs|, PayloadBytes(fs), Rolling(0, fs)), fs))
  {
    hide EncodeSnapHeader, EncodeFooter, DecodeSnapHeader, DecodeFooter, HeaderCrcOf, FooterCrcOf, Container, ReadRecords;
    ContainerParts(h, fs);
    SnapHeaderRoundTrip(FinalHeader(h, |fs|, PayloadBytes(fs), Rolling(0, fs)));
    FooterRoundTrip(FinalFooter(|fs|, PayloadBytes(fs), Rolling(0, fs)));
    ReadWhole(fs);
  }

  /** A container with more records than the reader allows is refused. */
  lemma {:induction false} ReadTooMany(h: SnapHeader, fs: seq<Record>, maxRecords: nat, maxBytes: nat)
    requires |fs| <= MAX_U64 && PayloadBytes(fs) <= MAX_U64 && |fs| > maxRecords
    requires SNAP_HEADER + |Flat(fs)| + SNAP_FOOTER <= maxBytes
    ensures Read(Container(h, fs), maxRecords, maxBytes) == Err(Oversized)
  {
    hide EncodeSnapHeader, EncodeFooter, DecodeSnapHeader, DecodeFooter, HeaderCrcOf, FooterCrcOf, Container, ReadRecords;
    ContainerParts(h, fs);
    SnapHeaderRoundTrip(FinalHeader(h, |fs|, PayloadBytes(fs), Rolling(0, fs)));
    FooterRoundTrip(FinalFooter(|fs|, PayloadBytes(fs), Rolling(0, fs)));
  }

  /** No strict prefix of a container is accepted, whatever its payloads look like. */
  lemma {:induction false} PrefixRefused(h: SnapHeader, fs: seq<Record>, n: nat, maxRecords: nat, maxBytes: nat)
    requires AllWhole(fs, NO_LIMIT) && |fs| <= MAX_U64 && PayloadBytes(fs) <= MAX_U64
    requires n < |Container(h, fs)|
    ensures Read(Container(h, fs)[..n], maxRecords, maxBytes).Err?
  {
    hide EncodeSnapHeader, EncodeFooter, DecodeSnapHeader, DecodeFooter, HeaderCrcOf, FooterCrcOf, Container, ReadRecords;
    var c := Container(h, fs);
    var p := c[..n];
    ContainerParts(h, fs);
    if n >= SNAP_HEADER + SNAP_FOOTER {
      var final := FinalHeader(h, |fs|, PayloadBytes(fs), Rolling(0, fs));
      SnapHeaderRoundTrip(final);
      assert p[..SNAP_HEADER] == c[..SNAP_HEADER];
      var m := n - SNAP_FOOTER - SNAP_HEADER;
      assert p[SNAP_HEADER..n - SNAP_FOOTER] == Flat(fs)[..m];
      ReadPrefix(fs, m);
    }
  }

  // ---- One changed byte -----------------------------------------------------

  lemma {:induction false} HeaderDetects(b: seq<u8>, i: nat, x: u8)
    requires |b| == SNAP_HEADER && i < |b| && b[i] != x && DecodeSnapHeader(b).magic != 0
    ensures DecodeSnapHeader(b[i := x]).magic == 0
  {
    hide HeaderCrcOf, RawSnapHeader, SealOk;
    SnapHeaderSeal(b);
    SnapHeaderSeal(b[i := x]);
    SealDetects(b, HEADER_SEAL, i, x);
  }

  lemma {:induction false} FooterDetects(b: seq<u8>, i: nat, x: u8)
    requires |b| == SNAP_FOOTER && i < |b| && b[i] != x && DecodeFooter(b).magic != 0
    ensures DecodeFooter(b[i := x]).magic == 0
  {
    hide FooterCrcOf, RawFooter, SealOk;
    FooterSeal(b);
    FooterSeal(b[i := x]);
    SealDetects(b, FOOTER_SEAL, i, x);
  }

  lemma {:induction false} RecordHeaderDetects(b: seq<u8>, i: nat, x: u8)
    requires |b| == HEADER_SIZE && i < |b| && b[i] != x && DecodeHeader(b).magic != 0
    ensures DecodeHeader(b[i := x]).magic == 0
  {
    hide ComputedCrc, RawHeader, SealOk;
    DecodeSeal(b);
    DecodeSeal(b[i := x]);
    SealDetects(b, SEAL_OFFSET, i, x);
  }

  /** A whole record with one byte changed is refused. */
  lemma {:induction false} LookDetects(r: Record, rest: seq<u8>, i: nat, x: u8)
    requires Whole(r, NO_LIMIT) && i < |Bytes(r)| && Bytes(r)[i] != x
    ensures Look((Bytes(r) + rest)[i := x], NO_LIMIT) == Refused(false)
  {
    hide EncodeHeader, DecodeHeader, ComputedCrc, Crc;
    var data := Bytes(r) + rest;
    var changed := data[i := x];
    var head := data[..HEADER_SIZE];
    assert head == EncodeHeader(r.header);
    HeaderKept(r.header);
    if i < HEADER_SIZE {
      RecordHeaderDetects(head, i, x);
      assert changed[..HEADER_SIZE] == head[i := x];
    } else {
      assert changed[..HEADER_SIZE] == head;
      var n := HEADER_SIZE + |r.payload|;
      assert data[HEADER_SIZE..n] == r.payload;
      assert changed[HEADER_SIZE..n] == r.payload[i - HEADER_SIZE := x];
      CrcDetects(r.payload, i - HEADER_SIZE, x);
    }
  }

  lemma {:induction false} HeaderKept(h: Header)
    requires h.headerCrc == ComputedCrc(h)
    ensures DecodeHeader(EncodeHeader(h)) == h
  {
    RawEncode(h);
  }

  lemma {:induction false} ReadDetects(fs: seq<Record>, i: nat, x: u8)
    requires AllWhole(fs, NO_LIMIT) && i < |Flat(fs)| && Flat(fs)[i] != x
    ensures ReadRecords(Flat(fs)[i := x], |fs|).Err?
  {
    hide Bytes, Look, Whole;
    var first, rest := Bytes(fs[0]), Flat(fs[1..]);
    if i < |first| {
      LookDetects(fs[0], rest, i, x);
    } else {
      var changed := rest[i - |first| := x];
      assert Flat(fs)[i := x] == first + changed;
      LookWhole(fs[0], changed, NO_LIMIT);
      assert (first + changed)[|first|..] == changed;
      ReadDetects(fs[1..], i - |first|, x);
    }
  }

  /** Changing any one byte of a container makes it unreadable. */
  lemma {:induction false} ByteRefused(h: SnapHeader, fs: seq<Record>, i: nat, x: u8, maxRecords: nat, maxBytes: nat)
    requires AllWhole(fs, NO_LIMIT) && |fs| <= MAX_U64 && PayloadBytes(fs) <= MAX_U64
    requires i < |Container(h, fs)| && Container(h, fs)[i] != x
    ensures Read(Container(h, fs)[i := x], maxRecords, maxBytes).Err?
  {
    hide EncodeSnapHeader, EncodeFooter, DecodeSnapHeader, DecodeFooter, HeaderCrcOf, FooterCrcOf, Container, ReadRecords;
    var c := Container(h, fs);
    var d := c[i := x];
    ContainerParts(h, fs);
    var head, body, foot := c[..SNAP_HEADER], c[SNAP_HEADER..|c| - SNAP_FOOTER], c[|c| - SNAP_FOOTER..];
    SnapHeaderRoundTrip(FinalHeader(h, |fs|, PayloadBytes(fs), Rolling(0, fs)));
    FooterRoundTrip(FinalFooter(|fs|, PayloadBytes(fs), Rolling(0, fs)));
    if i < SNAP_HEADER {
      HeaderDetects(head, i, x);
      assert d[..SNAP_HEADER] == head[i := x];
    } else if i < |c| - SNAP_FOOTER {
      assert d[..SNAP_HEADER] == head;
      ReadDetects(fs, i - SNAP_HEADER, x);
      assert d[SNAP_HEADER..|c| - SNAP_FOOTER] == body[i - SNAP_HEADER := x];
    } else {
      FooterDetects(foot, i - (|c| - SNAP_FOOTER), x);
      assert d[|c| - SNAP_FOOTER..] == foot[i - (|c| - SNAP_FOOTER) := x];
    }
  }

  // ---- The loops ------------------------------------------------------------

  predicate PayloadsBounded(rs: seq<Record>) {
    forall r | r in rs :: |r.payload| <= MAX_RECORD_BYTES
  }

  lemma {:induction false} RollingAppend(seed: u32, rs: seq<Record>, r: Record)
    ensures Rolling(seed, rs + [r]) == Continue(Rolling(seed, rs), r.payload)
    ensures PayloadBytes(rs + [r]) == PayloadBytes(rs) + |r.payload|
    decreases |rs|
  {
    hide Continue;
    if rs == [] {
      assert rs + [r] == [r];
    } else {
      assert (rs + [r])[1..] == rs[1..] + [r];
      RollingAppend(Continue(seed, rs[0].payload), rs[1..], r);
      RollingAppend(seed, rs[1..], r);
    }
  }

  lemma {:induction false} FramedAppend(rs: seq<Record>, r: Record)
    requires PayloadsBounded(rs + [r])
    ensures r in rs + [r] && PayloadsBounded(rs)
    ensures FramedAll(rs + [r]) == FramedAll(rs) + [Framed(r)]
    decreases |rs|
  {
    hide Framed, FramedAll, Whole;
    assert (rs + [r])[|rs|] == r;
    assert forall q | q in rs :: q in rs + [r];
    var x, y := FramedAll(rs + [r]), FramedAll(rs) + [Framed(r)];
    forall i | 0 <= i < |x|
      ensures x[i] == y[i]
    {
      assert (rs + [r])[i] == if i < |rs| then rs[i] else r;
    }
  }

  lemma {:induction false} FlatAppend(rs: seq<Record>, r: Record)
    ensures Flat(rs + [r]) == Flat(rs) + Bytes(r)
  {
    hide Bytes;
    FlatConcat(rs, [r]);
    assert Flat([r]) == Bytes(r) + Flat([]);
  }

  /** `write_snapshot` up to the file replacement: the container, or why it was refused. */
  method WriteSnapshot(header: SnapHeader, records: seq<Record>, maxRecords: nat, maxBytes: nat)
    returns (r: Result<seq<u8>>)
    requires maxBytes <= MAX_SNAPSHOT_BYTES
    ensures r.Ok? <==> |records| <= maxRecords && PayloadsBounded(records) && ContainerSize(records) <= maxBytes
    ensures r.Ok? ==>
              var fs := FramedAll(records);
              |fs| <= MAX_U64 && PayloadBytes(fs) <= MAX_U64 && r.value == Container(header, fs)
    ensures r.Err? ==> r.error == if |records| > maxRecords || PayloadsBounded(records) then SnapError.LimitExceeded else Oversized
  {
    hide Framed, Flat, Crc, Continue, Container, ComputedCrc, FinalHeader, FinalFooter, EncodeHeader,
        EncodeSnapHeader, EncodeFooter;
    if |records| > maxRecords {
      return Err(SnapError.LimitExceeded);
    }
    var body: seq<u8> := [];
    var payloadBytes := 0;
    var crc: u32 := 0;
    assert Flat([]) == [] by {
      FlatSize([]);
    }
    for i := 0 to |records|
      invariant PayloadsBounded(records[..i])
      invariant body == Flat(FramedAll(records[..i]))
      invariant payloadBytes == PayloadBytes(FramedAll(records[..i]))
      invariant crc == Rolling(0, FramedAll(records[..i]))
    {
      var record := records[i];
      assert records[..i + 1] == records[..i] + [record];
      if |record.payload| > MAX_RECORD_BYTES {
        return Err(Oversized);
      }
      FramedAppend(records[..i], record);
      var framed := Framed(record);
      FlatAppend(FramedAll(records[..i]), framed);
      RollingAppend(0, FramedAll(records[..i]), framed);
      body := body + Bytes(framed);
      payloadBytes := payloadBytes + |record.payload|;
      crc := Continue(crc, record.payload);
    }
    assert records[..|records|] == records;
    ghost var fs := FramedAll(records);
    FlatSize(fs);
    FramedPayloads(records);
    var total := SNAP_HEADER + |body| + SNAP_FOOTER;
    if total > maxBytes {
      return Err(SnapError.LimitExceeded);
    }
    var head := EncodeSnapHeader(FinalHeader(header, |records|, payloadBytes, crc));
    var foot := EncodeFooter(FinalFooter(|records|, payloadBytes, crc));
    ContainerIs(header, fs);
    r := Ok(head + body + foot);
  }

  /** The records still to be read, put after those already read. */
  function After(rs: seq<Record>, r: Result<seq<Record>>): Result<seq<Record>> {
    match r
    case Err(e) => Err(e)
    case Ok(more) => Ok(rs + more)
  }

  /** `read_snapshot`: the offset loop with its running checksum accepts exactly what
      the container reader accepts. */
  method ReadSnapshot(data: seq<u8>, maxRecords: nat, maxBytes: nat) returns (r: Result<Contents>)
    ensures r == Read(data, maxRecords, maxBytes)
  {
    hide DecodeSnapHeader, DecodeFooter, Continue, Look, Bytes, Whole;
    if |data| > maxBytes {
      return Err(Oversized);
    }
    if |data| < SNAP_HEADER + SNAP_FOOTER {
      return Err(Truncated);
    }
    var header := DecodeSnapHeader(data[..SNAP_HEADER]);
    if header.magic != SNAPSHOT_MAGIC {
      return Err(IntegrityFailure);
    }
    if header.format != FORMAT_VERSION {
      return Err(Unsupported);
    }
    var footer := DecodeFooter(data[|data| - SNAP_FOOTER..]);
    if footer.magic != FOOTER_MAGIC {
      return Err(Truncated);
    }
    if footer.recordCount != header.recordCount || footer.payloadBytes != header.payloadBytes
       || footer.payloadCrc != header.payloadCrc {
      return Err(IntegrityFailure);
    }
    if header.recordCount > maxRecords {
      return Err(Oversized);
    }
    ghost var body := data[SNAP_HEADER..|data| - SNAP_FOOTER];
    ghost var whole := ReadRecords(body, header.recordCount);
    AfterNone(whole, []);
    var end := |data| - SNAP_FOOTER;
    var offset: nat := SNAP_HEADER;
    var records: seq<Record> := [];
    var payloadBytes := 0;
    var crc: u32 := 0;
    var index: nat := 0;
    assert data[offset..end] == body;
    while index < header.recordCount
      invariant index <= header.recordCount && SNAP_HEADER <= offset <= end
      invariant AfterIs(whole, records, data[offset..end], header.recordCount - index)
      invariant payloadBytes == PayloadBytes(records) && crc == Rolling(0, records)
    {
      var rest := data[offset..end];
      var sight := Look(rest, NO_LIMIT);
      ReadStep(rest, header.recordCount - index);
      match sight {
        case Torn =>
          return Err(Truncated);
        case Refused(unsupported) =>
          return Err(if unsupported then Unsupported else IntegrityFailure);
        case Seen(record) =>
          LookExact(rest, NO_LIMIT);
          RollingAppend(0, records, record);
          StepAfter(whole, records, rest, header.recordCount - index, record);
          records := records + [record];
          payloadBytes := payloadBytes + |record.payload|;
          crc := Continue(crc, record.payload);
          offset := offset + |Bytes(record)|;
          assert data[offset..end] == rest[|Bytes(record)|..];
      }
      index := index + 1;
    }
    ReadNone(data[offset..end]);
    if offset != end {
      return Err(Malformed);
    }
    AfterNone(whole, records);
    if payloadBytes != header.payloadBytes || crc != header.payloadCrc {
      return Err(IntegrityFailure);
    }
    r := Ok(Contents(header, records));
  }

  predicate AfterIs(whole: Result<seq<Record>>, records: seq<Record>, rest: seq<u8>, count: nat) {
    whole == After(records, ReadRecords(rest, count))
  }

  lemma {:induction false} AfterNone(whole: Result<seq<Record>>, records: seq<Record>)
    ensures After([], whole) == whole && After(records, Ok([])) == Ok(records)
  {
    if whole.Ok? {
      assert [] + whole.value == whole.value;
    }
    assert records + [] == records;
  }

  lemma {:induction false} ReadNone(rest: seq<u8>)
    ensures ReadRecords(rest, 0) == if rest == [] then Ok([]) else Err(Malformed)
  {
  }

  lemma {:induction false} ReadStep(rest: seq<u8>, count: nat)
    requires count > 0
    ensures Look(rest, NO_LIMIT).Torn? ==> ReadRecords(rest, count) == Err(Truncated)
    ensures Look(rest, NO_LIMIT).Refused? ==>
              ReadRecords(rest, count) == Err(if Look(rest, NO_LIMIT).unsupported then Unsupported else IntegrityFailure)
  {
    hide Look, Bytes;
  }

  lemma {:induction false} StepAfter(whole: Result<seq<Record>>, records: seq<Record>, rest: seq<u8>, count: nat,
                                     record: Record)
    requires count > 0 && AfterIs(whole, records, rest, count) && Look(rest, NO_LIMIT) == Seen(record)
    requires |Bytes(record)| <= |rest|
    ensures AfterIs(whole, records + [record], rest[|Bytes(record)|..], count - 1)
  {
    hide Look, Bytes;
    var more := ReadRecords(rest[|Bytes(record)|..], count - 1);
    if more.Ok? {
      assert records + ([record] + more.value) == records + [record] + more.value;
    }
  }

  lemma {:induction false} ContainerIs(h: SnapHeader, fs: seq<Record>)
    requires |fs| <= MAX_U64 && PayloadBytes(fs) <= MAX_U64
    ensures Container(h, fs) == EncodeSnapHeader(FinalHeader(h, |fs|, PayloadBytes(fs), Rolling(0, fs))) + Flat(fs)
                              + EncodeFooter(FinalFooter(|fs|, PayloadBytes(fs), Rolling(0, fs)))
  {
  }
}
