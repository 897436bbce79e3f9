/** The append-only, CRC-framed record log (src/durability/journal.cpp). */
module Journal {
  import opened Words
  import opened Model
  import opened Crc32c
  import opened Sealed

  const RECORD_MAGIC: u32 := 0x4E43_4652
  const FORMAT_VERSION: u16 := 1
  const HEADER_SIZE: nat := 64
  const MAX_RECORD_BYTES: nat := 0x40_0000
  const MAX_JOURNAL_BYTES: nat := 0x4_0000_0000

  const INTENT: u16 := 1
  const PAYLOAD: u16 := 2
  const COMMIT: u16 := 3
  const ABORT: u16 := 4
  const REBASE: u16 := 5

  /** The 64-byte record header, fields in file order. */
  datatype Header = Header(
    magic: u32, format: u16, kind: u16, headerCrc: u32, payloadLen: u32, payloadCrc: u32, reserved: u32,
    sequence: u64, epoch: u64, generation: u64, transaction: u64, reserved2: u32, reserved3: u32)

  datatype Record = Record(header: Header, payload: seq<u8>)

  // ---- Header codec ---------------------------------------------------------

  const WIDTHS: seq<Width> :=
    [Four, Two, Two, Four, Four, Four, Four, Eight, Eight, Eight, Eight, Four, Four]
  const SEAL_WORD: nat := 3
  const SEAL_OFFSET: nat := 8

  lemma {:induction false} Offsets()
    ensures Offset(WIDTHS, |WIDTHS|) == HEADER_SIZE && Offset(WIDTHS, SEAL_WORD) == SEAL_OFFSET
  {
    hide Offset;
    var ks := WIDTHS;
    OffsetSteps(ks);
    assert ks[0].Size() == 4 && ks[1].Size() == 2 && ks[2].Size() == 2;
    assert ks[3].Size() == 4 && ks[4].Size() == 4 && ks[5].Size() == 4 && ks[6].Size() == 4;
    assert Offset(ks, 7) == 24;
    assert ks[7].Size() == 8 && ks[8].Size() == 8 && ks[9].Size() == 8 && ks[10].Size() == 8;
    assert ks[11].Size() == 4 && ks[12].Size() == 4;
  }

  function HeaderWords(h: Header): (ws: seq<Word>)
    ensures Shaped(WIDTHS, ws)
  {
    [W4(h.magic), W2(h.format), W2(h.kind), W4(h.headerCrc), W4(h.payloadLen), W4(h.payloadCrc), W4(h.reserved),
     W8(h.sequence), W8(h.epoch), W8(h.generation), W8(h.transaction), W4(h.reserved2), W4(h.reserved3)]
  }

  function HeaderOf(ws: seq<Word>): (h: Header)
    requires Shaped(WIDTHS, ws)
    ensures HeaderWords(h) == ws
  {
    assert forall i | 0 <= i < 13 :: WidthOf(ws[i]) == WIDTHS[i];
    Header(ws[0].n4, ws[1].n2, ws[2].n2, ws[3].n4, ws[4].n4, ws[5].n4, ws[6].n4,
           ws[7].n8, ws[8].n8, ws[9].n8, ws[10].n8, ws[11].n4, ws[12].n4)
  }

  function EncodeHeader(h: Header): (b: seq<u8>)
    ensures |b| == HEADER_SIZE
  {
    Offsets();
    Pack(WIDTHS, HeaderWords(h))
  }

  /** The checksum of the header with its own checksum field zeroed. */
  function ComputedCrc(h: Header): u32 {
    Crc(EncodeHeader(h.(headerCrc := 0)))
  }

  function RawHeader(b: seq<u8>): (h: Header)
    requires |b| == HEADER_SIZE
    ensures EncodeHeader(h) == b
  {
    Offsets();
    PackUnpack(WIDTHS, b);
    HeaderOf(Unpack(WIDTHS, b))
  }

  /** A header whose checksum fails comes back with its magic cleared. */
  function DecodeHeader(b: seq<u8>): Header
    requires |b| == HEADER_SIZE
  {
    var h := RawHeader(b);
    if ComputedCrc(h) != h.headerCrc then h.(magic := 0) else h
  }

  lemma {:induction false} RawEncode(h: Header)
    ensures RawHeader(EncodeHeader(h)) == h
  {
    Offsets();
    UnpackPack(WIDTHS, HeaderWords(h));
  }

  lemma {:induction false} BlankSeal(h: Header)
    ensures HeaderWords(h)[SEAL_WORD := Zero(Four)] == HeaderWords(h.(headerCrc := 0))
    ensures HeaderWords(h)[SEAL_WORD] == W4(h.headerCrc)
    ensures WIDTHS[SEAL_WORD] == Four
  {
  }

  /** The header check is the seal over the bytes. */
  lemma {:induction false} DecodeSeal(b: seq<u8>)
    requires |b| == HEADER_SIZE
    ensures ComputedCrc(RawHeader(b)) == RawHeader(b).headerCrc <==> SealOk(b, SEAL_OFFSET)
  {
    hide HeaderWords, HeaderOf, Crc;
    Offsets();
    var h := RawHeader(b);
    PackUnpack(WIDTHS, b);
    PackZeroed(WIDTHS, b, SEAL_WORD);
    UnpackAt(WIDTHS, b, SEAL_WORD);
    UnLe32(h.headerCrc);
    BlankSeal(h);
  }

  // ---- Records --------------------------------------------------------------

  function Bytes(r: Record): (b: seq<u8>)
    ensures |b| == HEADER_SIZE + |r.payload|
  {
    EncodeHeader(r.header) + r.payload
  }

  function Flat(rs: seq<Record>): seq<u8> {
    if rs == [] then [] else Bytes(rs[0]) + Flat(rs[1..])
  }

  /** The record is sealed and its payload is the one it describes. */
  predicate Whole(r: Record, limit: nat) {
    && r.header.magic == RECORD_MAGIC
    && r.header.format == FORMAT_VERSION
    && r.header.headerCrc == ComputedCrc(r.header)
    && r.header.payloadLen == |r.payload| <= limit
    && r.header.payloadCrc == Crc(r.payload)
  }

  predicate AllWhole(rs: seq<Record>, limit: nat) {
    forall r | r in rs :: Whole(r, limit)
  }

  /** What `append` writes. */
  function Make(kind: u16, sequence: u64, epoch: u64, generation: u64, transaction: u64, payload: seq<u8>): (r: Record)
    requires |payload| <= 0xFFFF_FFFF
    ensures forall limit | |payload| <= limit :: Whole(r, limit)
  {
    var h := Header(RECORD_MAGIC, FORMAT_VERSION, kind, 0, |payload|, Crc(payload), 0,
                    sequence, epoch, generation, transaction, 0, 0);
    Record(h.(headerCrc := ComputedCrc(h)), payload)
  }

  datatype Sight = Torn | Refused(unsupported: bool) | Seen(record: Record)

  /** The checks replay makes at one offset, in order. */
  function Look(data: seq<u8>, limit: nat): Sight {
    if |data| < HEADER_SIZE then Torn
    else
      var h := DecodeHeader(data[..HEADER_SIZE]);
      if h.magic != RECORD_MAGIC then Refused(false)
      else if h.format != FORMAT_VERSION then Refused(true)
      else if h.payloadLen > limit then Refused(false)
      else if |data| < HEADER_SIZE + h.payloadLen then Torn
      else
        var payload := data[HEADER_SIZE..HEADER_SIZE + h.payloadLen];
        if Crc(payload) != h.payloadCrc then Refused(false) else Seen(Record(h, payload))
  }

  lemma {:induction false} LookWhole(r: Record, rest: seq<u8>, limit: nat)
    requires Whole(r, limit)
    ensures Look(Bytes(r) + rest, limit) == Seen(r)
  {
    hide EncodeHeader, RawHeader, ComputedCrc, Crc;
    var data := Bytes(r) + rest;
    assert data[..HEADER_SIZE] == EncodeHeader(r.header);
    assert data[HEADER_SIZE..HEADER_SIZE + |r.payload|] == r.payload;
    RawEncode(r.header);
  }

  lemma {:induction false} LookTorn(r: Record, n: nat, limit: nat)
    requires Whole(r, limit) && n < |Bytes(r)|
    ensures Look(Bytes(r)[..n], limit) == Torn
  {
    hide EncodeHeader, RawHeader, ComputedCrc, Crc;
    if n >= HEADER_SIZE {
      assert Bytes(r)[..n][..HEADER_SIZE] == EncodeHeader(r.header);
      RawEncode(r.header);
    }
  }

  lemma {:induction false} LookExact(data: seq<u8>, limit: nat)
    requires Look(data, limit).Seen?
    ensures var r := Look(data, limit).record;
            Whole(r, limit) && |Bytes(r)| <= |data| && data[..|Bytes(r)|] == Bytes(r)
  {
    hide EncodeHeader, RawHeader, ComputedCrc, Crc;
    var h := DecodeHeader(data[..HEADER_SIZE]);
    assert data[..HEADER_SIZE + h.payloadLen] == data[..HEADER_SIZE] + data[HEADER_SIZE..HEADER_SIZE + h.payloadLen];
  }

  // ---- Replay ---------------------------------------------------------------

  datatype Scanned = Scanned(records: seq<Record>, valid: nat, end: End)
  datatype End = Clean | TornEnd | RefusedEnd

  /** Walk the file record by record until it ends, tears or is refused. */
  function Scan(data: seq<u8>, limit: nat): Scanned
    decreases |data|
  {
    if data == [] then Scanned([], 0, Clean)
    else
      match Look(data, limit)
      case Torn => Scanned([], 0, TornEnd)
      case Refused(_) => Scanned([], 0, RefusedEnd)
      case Seen(r) =>
        LookExact(data, limit);
        var s := Scan(data[|Bytes(r)|..], limit);
        Scanned([r] + s.records, |Bytes(r)| + s.valid, s.end)
  }

  datatype Status = Empty | Complete | TruncatedTail | Corrupt

  datatype Replayed = Replayed(
    records: seq<Record>, fileBytes: nat, validBytes: nat, droppedBytes: nat, rejected: nat, status: Status)

  function Judge(records: seq<Record>, end: End): Status {
    match end
    case Clean => if records != [] then Complete else Empty
    case TornEnd => if records != [] then TruncatedTail else Empty
    case RefusedEnd => Corrupt
  }

  function Replay(data: seq<u8>, limit: nat): Replayed {
    var s := Scan(data, limit);
    ScanExact(data, limit);
    Replayed(s.records, |data|, s.valid, |data| - s.valid, if s.end.RefusedEnd? then 1 else 0, Judge(s.records, s.end))
  }

  /** The accepted records re-encode to exactly the valid bytes of the file. */
  lemma {:induction false} ScanExact(data: seq<u8>, limit: nat)
    ensures var s := Scan(data, limit);
            s.valid <= |data| && Flat(s.records) == data[..s.valid] && AllWhole(s.records, limit)
            && (s.end.Clean? ==> s.valid == |data|)
    decreases |data|
  {
    hide Bytes, Look, Whole;
    if data != [] && Look(data, limit).Seen? {
      var r := Look(data, limit).record;
      LookExact(data, limit);
      var rest := data[|Bytes(r)|..];
      ScanExact(rest, limit);
      var s := Scan(rest, limit);
      assert data[..|Bytes(r)| + s.valid] == Bytes(r) + rest[..s.valid];
      assert Scan(data, limit).records[1..] == s.records;
    }
  }

  /** On any bytes: valid and dropped bytes add up to the file, and the records
      returned are whole and re-encode to the valid bytes. */
  lemma {:induction false} ReplayExact(data: seq<u8>, limit: nat)
    ensures var p := Replay(data, limit);
            && p.validBytes + p.droppedBytes == p.fileBytes == |data|
            && Flat(p.records) == data[..p.validBytes]
            && AllWhole(p.records, limit)
            && (p.status == Complete ==> p.droppedBytes == 0 && p.records != [])
  {
    ScanExact(data, limit);
  }

  /** Whole records, then possibly a torn one. */
  lemma {:induction false} ScanAppended(rs: seq<Record>, torn: seq<u8>, r: Record, limit: nat)
    requires AllWhole(rs, limit) && Whole(r, limit)
    requires |torn| < |Bytes(r)| && torn == Bytes(r)[..|torn|]
    ensures Scan(Flat(rs) + torn, limit) == Scanned(rs, |Flat(rs)|, if torn == [] then Clean else TornEnd)
    decreases |rs|
  {
    hide Bytes, Look, Whole;
    var data := Flat(rs) + torn;
    if rs == [] {
      assert data == torn;
      LookTorn(r, |torn|, limit);
    } else {
      var rest := Flat(rs[1..]) + torn;
      assert data == Bytes(rs[0]) + rest;
      LookWhole(rs[0], rest, limit);
      assert data[|Bytes(rs[0])|..] == rest;
      ScanAppended(rs[1..], torn, r, limit);
      assert [rs[0]] + rs[1..] == rs;
    }
  }

  lemma {:induction false} HeaderDamage(b: seq<u8>, i: nat, x: u8)
    requires |b| == HEADER_SIZE && i < |b| && b[i] != x && ComputedCrc(RawHeader(b)) == RawHeader(b).headerCrc
    ensures DecodeHeader(b[i := x]).magic == 0
  {
    hide ComputedCrc, RawHeader, SealOk;
    DecodeSeal(b);
    DecodeSeal(b[i := x]);
    SealDetects(b, SEAL_OFFSET, i, x);
  }

  /** A whole record with one byte changed is refused, whatever follows it. */
  lemma {:induction false} RecordDamage(r: Record, i: nat, x: u8, rest: seq<u8>, limit: nat)
    requires Whole(r, limit) && i < |Bytes(r)| && Bytes(r)[i] != x
    ensures Look(Bytes(r)[i := x] + rest, limit) == Refused(false)
  {
    hide EncodeHeader, RawHeader, ComputedCrc, Crc;
    var b := EncodeHeader(r.header);
    var data := Bytes(r)[i := x] + rest;
    RawEncode(r.header);
    if i < HEADER_SIZE {
      assert data[..HEADER_SIZE] == b[i := x];
      HeaderDamage(b, i, x);
    } else {
      assert data[..HEADER_SIZE] == b;
      assert data[HEADER_SIZE..HEADER_SIZE + |r.payload|] == r.payload[i - HEADER_SIZE := x];
      CrcDetects(r.payload, i - HEADER_SIZE, x);
    }
  }

  /** Damage is found: with any one byte of a journal of whole records changed, replay
      returns exactly the records before the damaged one and calls the journal corrupt. */
  lemma {:induction false} DamageFound(rs: seq<Record>, i: nat, x: u8, limit: nat)
    requires AllWhole(rs, limit) && i < |Flat(rs)| && Flat(rs)[i] != x
    ensures var p := Replay(Flat(rs)[i := x], limit);
            && p.records == rs[..WholeIn(rs, i)] && p.validBytes == |Flat(p.records)| <= i && p.status == Corrupt
    decreases |rs|
  {
    hide Bytes, Look, Whole;
    var data, r := Flat(rs)[i := x], rs[0];
    if i < |Bytes(r)| {
      assert data == Bytes(r)[i := x] + Flat(rs[1..]);
      RecordDamage(r, i, x, Flat(rs[1..]), limit);
    } else {
      var j := i - |Bytes(r)|;
      var rest := Flat(rs[1..])[j := x];
      assert data == Bytes(r) + rest;
      LookWhole(r, rest, limit);
      assert data[|Bytes(r)|..] == rest;
      DamageFound(rs[1..], j, x, limit);
      assert [r] + rs[1..][..WholeIn(rs[1..], j)] == rs[..WholeIn(rs, i)];
    }
  }

  /** The number of whole records among the first `n` bytes of a journal. */
  function WholeIn(rs: seq<Record>, n: nat): (k: nat)
    ensures k <= |rs|
  {
    if rs == [] || n < |Bytes(rs[0])| then 0 else 1 + WholeIn(rs[1..], n - |Bytes(rs[0])|)
  }

  /** The first `n` bytes are the first `k` records and a torn prefix of the next. */
  predicate CutAt(rs: seq<Record>, n: nat, k: nat)
    requires n <= |Flat(rs)| && k <= |rs|
  {
    var o := |Flat(rs[..k])|;
    && o <= n
    && Flat(rs)[..n] == Flat(rs[..k]) + Flat(rs)[o..n]
    && (k < |rs| ==> n - o < |Bytes(rs[k])| && Flat(rs)[o..n] == Bytes(rs[k])[..n - o])
    && (k == |rs| ==> n == |Flat(rs)|)
  }

  lemma {:induction false} CutBeyond(rs: seq<Record>, m: nat, k: nat)
    requires rs != [] && m <= |Flat(rs[1..])| && k <= |rs[1..]| && CutAt(rs[1..], m, k)
    ensures |Bytes(rs[0])| + m <= |Flat(rs)| && CutAt(rs, |Bytes(rs[0])| + m, k + 1)
  {
    FlatNext(rs, k);
    hide Bytes, Flat;
    var tail, next := rs[1..], rs[..k + 1];
    Prepended(Bytes(rs[0]), Flat(tail), Flat(tail[..k]), m);
    if k < |tail| {
      assert tail[k] == rs[k + 1];
    }
  }

  lemma {:induction false} Prepended(first: seq<u8>, rest: seq<u8>, head: seq<u8>, m: nat)
    requires |head| <= m <= |rest| && rest[..m] == head + rest[|head|..m]
    ensures var whole, front, n := first + rest, first + head, |first| + m;
            && |front| <= n && whole[..n] == front + whole[|front|..n]
            && whole[|front|..n] == rest[|head|..m] && n - |front| == m - |head|
  {
    Shifted(first, rest, |head|, m);
    assert first + (head + rest[|head|..m]) == first + head + rest[|head|..m];
  }

  lemma {:induction false} CutWithin(rs: seq<Record>, n: nat)
    requires n <= |Flat(rs)| && (rs != [] ==> n < |Bytes(rs[0])|)
    ensures CutAt(rs, n, 0)
  {
    hide Bytes;
    assert rs[..0] == [];
    if rs != [] {
      assert Flat(rs)[..n] == Bytes(rs[0])[..n];
    }
  }

  /** Cutting a journal anywhere leaves its whole records and a torn prefix of the next. */
  lemma {:induction false} Cut(rs: seq<Record>, n: nat)
    requires n <= |Flat(rs)|
    ensures CutAt(rs, n, WholeIn(rs, n))
    decreases |rs|
  {
    hide Bytes, CutAt;
    if rs != [] && n >= |Bytes(rs[0])| {
      var m := n - |Bytes(rs[0])|;
      WholeNext(rs, n);
      FlatNext(rs, 0);
      hide WholeIn, Flat;
      Cut(rs[1..], m);
      CutBeyond(rs, m, WholeIn(rs[1..], m));
    } else {
      CutWithin(rs, n);
    }
  }

  lemma {:induction false} Shifted(x: seq<u8>, y: seq<u8>, o: nat, m: nat)
    requires o <= m <= |y|
    ensures (x + y)[|x| + o..|x| + m] == y[o..m] && (x + y)[..|x| + m] == x + y[..m]
  {
  }

  lemma {:induction false} WholeNext(rs: seq<Record>, n: nat)
    requires rs != [] && n >= |Bytes(rs[0])|
    ensures WholeIn(rs, n) == 1 + WholeIn(rs[1..], n - |Bytes(rs[0])|)
  {
  }

  lemma {:induction false} FlatNext(rs: seq<Record>, k: nat)
    requires rs != [] && k <= |rs[1..]|
    ensures Flat(rs) == Bytes(rs[0]) + Flat(rs[1..]) && Flat(rs[..k + 1]) == Bytes(rs[0]) + Flat(rs[1..][..k])
  {
    hide Bytes;
    var front := rs[..k + 1];
    assert front[0] == rs[0] && front[1..] == rs[1..][..k];
  }

  /** On any byte prefix of an appended journal, replay returns exactly the whole
      records in the prefix, reports Complete exactly for a non-empty cut on a
      record boundary, and never reports corruption. */
  lemma {:induction false} ReplayPrefix(rs: seq<Record>, n: nat, limit: nat)
    requires AllWhole(rs, limit) && n <= |Flat(rs)|
    ensures var p := Replay(Flat(rs)[..n], limit); var k := WholeIn(rs, n);
            && p.records == rs[..k] && p.validBytes == |Flat(rs[..k])|
            && (p.status == Complete <==> n > 0 && n == |Flat(rs[..k])|)
            && (p.status == TruncatedTail <==> k > 0 && n > |Flat(rs[..k])|)
            && p.status != Corrupt && p.rejected == 0
  {
    hide Bytes, Look, Whole, Make;
    var k := WholeIn(rs, n);
    Cut(rs, n);
    var torn := Flat(rs)[|Flat(rs[..k])|..n];
    var next := if k < |rs| then rs[k] else Make(INTENT, 0, 0, 0, 0, []);
    assert forall r | r in rs[..k] :: r in rs;
    if k == |rs| {
      assert rs[..k] == rs;
    }
    ScanAppended(rs[..k], torn, next, limit);
    FlatNonEmpty(rs[..k]);
  }

  lemma {:induction false} FlatNonEmpty(rs: seq<Record>)
    ensures rs != [] ==> |Flat(rs)| >= HEADER_SIZE
  {
  }

  lemma {:induction false} FlatConcat(x: seq<Record>, y: seq<Record>)
    ensures Flat(x + y) == Flat(x) + Flat(y)
  {
    hide Bytes, Look, Whole;
    if x == [] {
      assert x + y == y;
    } else {
      assert (x + y)[1..] == x[1..] + y;
      FlatConcat(x[1..], y);
    }
  }

  /** What was scanned before, then the scan of the rest. */
  function After(records: seq<Record>, offset: nat, s: Scanned): Scanned {
    Scanned(records + s.records, offset + s.valid, s.end)
  }

  lemma {:induction false} AfterNothing(s: Scanned, limit: nat)
    ensures After([], 0, s) == s
  {
    assert [] + s.records == s.records;
  }

  lemma {:induction false} ScanEnd(data: seq<u8>, limit: nat, records: seq<Record>, offset: nat)
    ensures data == [] ==> After(records, offset, Scan(data, limit)) == Scanned(records, offset, Clean)
  {
    assert records + [] == records;
  }

  lemma {:induction false} ScanStep(data: seq<u8>, limit: nat, records: seq<Record>, offset: nat)
    requires data != []
    ensures match Look(data, limit)
            case Torn => After(records, offset, Scan(data, limit)) == Scanned(records, offset, TornEnd)
            case Refused(_) => After(records, offset, Scan(data, limit)) == Scanned(records, offset, RefusedEnd)
            case Seen(r) =>
              |Bytes(r)| <= |data|
              && After(records, offset, Scan(data, limit))
              == After(records + [r], offset + |Bytes(r)|, Scan(data[|Bytes(r)|..], limit))
  {
    hide Look, Bytes, Whole;
    assert records + [] == records;
    if Look(data, limit).Seen? {
      var r := Look(data, limit).record;
      LookExact(data, limit);
      var s := Scan(data[|Bytes(r)|..], limit);
      assert records + ([r] + s.records) == records + [r] + s.records;
    }
  }

  // ---- The journal object ---------------------------------------------------

  datatype Options = Options(maxRecordBytes: nat, maxJournalBytes: nat, readOnly: bool)

  datatype Outcome = Done | Denied(error: Error)
  datatype Error = Unauthorized | TooLarge | LimitExceeded | InvalidArgument

  function Next(sequence: u64): u64 {
    if sequence == MAX_U64 then 0 else sequence + 1
  }

  /** The checks `append` makes before it writes, in order. */
  function AppendCheck(options: Options, size: nat, payload: seq<u8>): Outcome {
    if options.readOnly then Denied(Unauthorized)
    else if |payload| > options.maxRecordBytes then Denied(TooLarge)
    else if size + HEADER_SIZE + |payload| > options.maxJournalBytes then Denied(LimitExceeded)
    else Done
  }

  lemma {:induction false} Admitted(options: Options, size: nat, payload: seq<u8>)
    requires AppendCheck(options, size, payload).Done?
    ensures !options.readOnly && |payload| <= options.maxRecordBytes
  {
  }

  lemma {:induction false} BytesOf(h: Header, payload: seq<u8>)
    ensures Bytes(Record(h, payload)) == EncodeHeader(h) + payload
  {
  }

  class Log {
    const options: Options
    /** The bytes on disk. */
    var file: seq<u8>
    var size: nat
    var nextSequence: u64

    ghost predicate Valid()
      reads this
    {
      size == |file| && options.maxRecordBytes <= 0xFFFF_FFFF
    }

    /** Open an existing file; sequencing starts at one until it is resumed. */
    constructor (content: seq<u8>, opts: Options)
      requires opts.maxRecordBytes <= 0xFFFF_FFFF
      ensures Valid() && file == content && nextSequence == 1 && options == opts
    {
      options := opts;
      file := content;
      size := |content|;
      nextSequence := 1;
    }

    method Append(kind: u16, epoch: u64, generation: u64, transaction: u64, payload: seq<u8>) returns (r: Outcome)
      requires Valid()
      modifies this`file, this`size, this`nextSequence
      ensures Valid() && r == AppendCheck(options, old(size), payload)
      ensures r.Denied? ==> file == old(file) && nextSequence == old(nextSequence)
      ensures r.Done? ==>
                && file == old(file) + Bytes(Make(kind, old(nextSequence), epoch, generation, transaction, payload))
                && nextSequence == Next(old(nextSequence))
    {
      hide Crc, EncodeHeader, AppendCheck, Bytes;
      r := AppendCheck(options, size, payload);
      if r.Denied? {
        return;
      }
      Admitted(options, size, payload);
      var projected := size + HEADER_SIZE + |payload|;
      var header := Header(RECORD_MAGIC, FORMAT_VERSION, kind, 0, |payload|, Crc(payload), 0,
                           nextSequence, epoch, generation, transaction, 0, 0);
      header := header.(headerCrc := ComputedCrc(header));
      file := file + EncodeHeader(header);
      file := file + payload;
      size := projected;
      BytesOf(header, payload);
      nextSequence := Next(nextSequence);
    }

    /** A file beyond the journal bound is not read; otherwise the replay loop reads
        exactly what the record scan says. */
    method ReplayFile() returns (r: Option<Replayed>)
      requires Valid()
      ensures r == if |file| > options.maxJournalBytes then None else Some(Replay(file, options.maxRecordBytes))
    {
      hide Look, Bytes, Whole, Scan;
      if |file| > options.maxJournalBytes {
        return None;
      }
      var limit := options.maxRecordBytes;
      var records: seq<Record> := [];
      var offset: nat := 0;
      var end := Clean;
      ghost var whole := Scan(file, limit);
      assert file[0..] == file;
      AfterNothing(whole, limit);
      while offset < |file| && end == Clean
        invariant offset <= |file|
        invariant end == Clean ==> whole == After(records, offset, Scan(file[offset..], limit))
        invariant end != Clean ==> whole == Scanned(records, offset, end)
        decreases |file| - offset, end == Clean
      {
        ScanStep(file[offset..], limit, records, offset);
        var sight := Look(file[offset..], limit);
        match sight {
          case Torn => end := TornEnd;
          case Refused(_) => end := RefusedEnd;
          case Seen(record) =>
            LookExact(file[offset..], limit);
            assert file[offset..][|Bytes(record)|..] == file[offset + |Bytes(record)|..];
            records := records + [record];
            offset := offset + |Bytes(record)|;
        }
      }
      ScanEnd(file[offset..], limit, records, offset);
      ScanExact(file, limit);
      r := Some(Replayed(records, |file|, offset, |file| - offset, if end == RefusedEnd then 1 else 0,
                         Judge(records, end)));
    }

    /** Cut the file back; never grows it. */
    method TruncateTo(validBytes: nat) returns (r: Outcome)
      requires Valid()
      modifies this`file, this`size
      ensures Valid()
      ensures r == if options.readOnly then Denied(Unauthorized)
                   else if validBytes > old(size) then Denied(InvalidArgument) else Done
      ensures file == if r.Done? then old(file)[..validBytes] else old(file)
    {
      if options.readOnly {
        return Denied(Unauthorized);
      }
      if validBytes > size {
        return Denied(InvalidArgument);
      }
      file := file[..validBytes];
      size := validBytes;
      r := Done;
    }

    /** Empty the file, then start it again with a rebase marker. */
    method Rebase(epoch: u64, generation: u64) returns (r: Outcome)
      requires Valid()
      modifies this`file, this`size, this`nextSequence
      ensures Valid()
      ensures options.readOnly ==> r == Denied(Unauthorized) && file == old(file) && nextSequence == old(nextSequence)
      ensures !options.readOnly ==> r == AppendCheck(options, 0, [])
      ensures r.Done? ==> file == Bytes(Make(REBASE, old(nextSequence), epoch, generation, 0, []))
                          && nextSequence == Next(old(nextSequence))
      ensures r.Denied? && !options.readOnly ==> file == [] && nextSequence == old(nextSequence)
    {
      if options.readOnly {
        return Denied(Unauthorized);
      }
      file := [];
      size := 0;
      r := Append(REBASE, epoch, generation, 0, []);
    }

    /** Sequencing only moves forward. */
    method ResumeSequence(next: u64)
      requires Valid()
      modifies this`nextSequence
      ensures Valid() && nextSequence == if next > old(nextSequence) then next else old(nextSequence)
    {
      if next > nextSequence {
        nextSequence := next;
      }
    }
  }
}
