/** Where the store's promise ends: a tear inside the very first journal record, and a
    checkpoint that holds more records than an open accepts
    (src/durability/journal.cpp, src/durability/store.cpp). */
module StoreLimits {
  import opened Words
  import opened Model
  import opened Layout
  import opened StoreCodec
  import opened Document
  import opened Checkpoint
  import opened Recovery
  import opened StoreRuns
  import J = Journal
  import S = Snapshot
  import W = Sealed
  import Crc32c

  // ---- A tear in the first record -------------------------------------------

  /** A header decodes as a record only over the magic and the format. */
  lemma {:induction false} HeadBytes(b: seq<u8>)
    requires |b| == J.HEADER_SIZE
    ensures b[..4] != Le(J.RECORD_MAGIC, 4) ==> J.DecodeHeader(b).magic != J.RECORD_MAGIC
    ensures b[4..6] != Le(J.FORMAT_VERSION, 2) ==> J.DecodeHeader(b).format != J.FORMAT_VERSION
  {
    hide J.ComputedCrc;
    J.Offsets();
    var h := J.RawHeader(b);
    W.PackUnpack(J.WIDTHS, b);
    W.UnpackPack(J.WIDTHS, J.HeaderWords(h));
    W.UnpackAt(J.WIDTHS, b, 0);
    W.UnpackAt(J.WIDTHS, b, 1);
    assert b[0..4] == b[..4];
    assert W.Offset(J.WIDTHS, 1) == 4;
  }

  lemma {:induction false} HeadOf(h: J.Header)
    requires h.magic == J.RECORD_MAGIC && h.format == J.FORMAT_VERSION
    ensures J.EncodeHeader(h)[..4] == Le(J.RECORD_MAGIC, 4) && J.EncodeHeader(h)[4..6] == Le(J.FORMAT_VERSION, 2)
  {
    J.Offsets();
    var b := J.EncodeHeader(h);
    W.UnpackPack(J.WIDTHS, J.HeaderWords(h));
    W.UnpackAt(J.WIDTHS, b, 0);
    W.UnpackAt(J.WIDTHS, b, 1);
    assert W.Offset(J.WIDTHS, 1) == 4;
    assert b[0..4] == b[..4];
  }

  lemma {:induction false} FirstSix()
    ensures Le(J.RECORD_MAGIC, 4) == [0x52, 0x46, 0x43, 0x4E] && Le(J.FORMAT_VERSION, 2) == [1, 0]
  {
    assert Le(0x4E43_4652, 4) == [0x52] + Le(0x4E_4346, 3);
    assert Le(0x4E_4346, 3) == [0x46] + Le(0x4E43, 2);
    assert Le(0x4E43, 2) == [0x43] + Le(0x4E, 1);
    assert Le(0x4E, 1) == [0x4E] + Le(0, 0);
    assert Le(1, 2) == [1] + Le(0, 1);
    assert Le(0, 1) == [0] + Le(0, 0);
  }

  lemma {:induction false} StartsWith(r: J.Record)
    requires J.Whole(r, J.MAX_RECORD_BYTES)
    ensures |J.Bytes(r)| >= J.HEADER_SIZE && J.Bytes(r)[..6] == [0x52, 0x46, 0x43, 0x4E, 1, 0]
  {
    hide J.EncodeHeader, J.ComputedCrc;
    HeadOf(r.header);
    FirstSix();
    var b := J.Bytes(r);
    assert b[..4] == J.EncodeHeader(r.header)[..4] && b[4..6] == J.EncodeHeader(r.header)[4..6];
    assert b[..6] == b[..4] + b[4..6];
  }

  /** One to five bytes of a record in front of a whole one hide it. */
  lemma {:induction false} GarbledHead(torn: seq<u8>, head: seq<u8>)
    requires 1 <= |torn| <= 5 && torn == [0x52, 0x46, 0x43, 0x4E, 1][..|torn|]
    requires |head| >= 5 && head[..5] == [0x52, 0x46, 0x43, 0x4E, 1]
    ensures (torn + head)[..4] != [0x52, 0x46, 0x43, 0x4E] || (torn + head)[4..6] != [1, 0]
  {
    var x := torn + head;
    assert head[0] == 0x52 && head[1] == 0x46 && head[2] == 0x43;
    assert x[|torn|] == head[0];
    if |torn| < 4 {
      assert x[..4][|torn|] == 0x52;
      assert [0x52, 0x46, 0x43, 0x4E][|torn|] != 0x52;
    } else {
      assert x[4..6][|torn| - 4] == 0x52;
      assert [1, 0][|torn| - 4] != 0x52;
    }
  }

  /** The first bytes of every record written in this format. */
  const HEAD: seq<u8> := [0x52, 0x46, 0x43, 0x4E, 1, 0]

  /** The tears of a first record past which nothing can be read whatever follows: those
      that leave at most five bytes; those that lose at most the last six bytes of a
      header, which are zero in every header `append` writes; and those that lose at most
      four bytes of payload, unless those bytes read like the start of a record. */
  predicate Blocking(first: J.Record, n: nat) {
    var b := J.Bytes(first);
    || 1 <= n <= 5
    || (58 <= n < J.HEADER_SIZE && b[n..J.HEADER_SIZE] == W.ZeroBytes(J.HEADER_SIZE - n))
    || (J.HEADER_SIZE <= n < |b| <= n + 4 && b[n..] != HEAD[..|b| - n])
  }

  /** The headers `append` writes end in eight zero bytes, so for them every such tear blocks. */
  lemma {:induction false} AppendedTearsBlock(kind: u16, sequence: u64, epoch: u64, generation: u64, transaction: u64,
                                              payload: seq<u8>, n: nat)
    requires |payload| <= 0xFFFF_FFFF && 58 <= n < J.HEADER_SIZE
    ensures Blocking(J.Make(kind, sequence, epoch, generation, transaction, payload), n)
  {
    hide J.ComputedCrc, J.Whole;
    var r := J.Make(kind, sequence, epoch, generation, transaction, payload);
    var b := J.EncodeHeader(r.header);
    ReservedZero(r.header);
    assert J.Bytes(r)[n..J.HEADER_SIZE] == b[n..];
    assert forall i | n <= i < 64 :: b[i] == b[56..64][i - 56];
    assert b[n..] == W.ZeroBytes(64 - n);
  }

  lemma {:induction false} ReservedZero(h: J.Header)
    requires h.reserved2 == 0 && h.reserved3 == 0
    ensures J.EncodeHeader(h)[56..64] == W.ZeroBytes(8)
  {
    hide W.Offset, W.Pack, W.Unpack, W.ZeroBytes;
    J.Offsets();
    var b := J.EncodeHeader(h);
    W.UnpackPack(J.WIDTHS, J.HeaderWords(h));
    assert J.WIDTHS[11].Size() == 4 && J.WIDTHS[12].Size() == 4 && |J.WIDTHS| == 13;
    W.UnpackAt(J.WIDTHS, b, 11);
    W.UnpackAt(J.WIDTHS, b, 12);
    W.OffsetOrder(J.WIDTHS, 11);
    W.OffsetOrder(J.WIDTHS, 12);
    W.LeZero(4);
    assert b[56..60] == W.ZeroBytes(4) && b[60..64] == W.ZeroBytes(4);
    assert b[56..64] == b[56..60] + b[60..64];
    EightZeros();
  }

  lemma {:induction false} EightZeros()
    ensures W.ZeroBytes(8) == W.ZeroBytes(4) + W.ZeroBytes(4)
  {
  }

  lemma {:induction false} ZeroHead(k: nat)
    requires 1 <= k <= 6
    ensures W.ZeroBytes(k) != HEAD[..k] && HEAD[..k][0] == 0x52
  {
    assert W.ZeroBytes(k)[0] == 0;
  }

  /** A header with its last bytes overwritten by the start of the next record fails its seal. */
  lemma {:induction false} OverwrittenHeader(b: seq<u8>, n: nat)
    requires |b| == J.HEADER_SIZE && 58 <= n < J.HEADER_SIZE && b[n..] == W.ZeroBytes(J.HEADER_SIZE - n)
    requires W.SealOk(b, J.SEAL_OFFSET)
    ensures !W.SealOk(b[..n] + HEAD[..J.HEADER_SIZE - n], J.SEAL_OFFSET)
  {
    hide W.ZeroBytes, Crc32c.Crc;
    var k := J.HEADER_SIZE - n;
    var c := b[..n] + HEAD[..k];
    ZeroHead(k);
    var before := W.Blank(b, 8, 4)[..n];
    assert W.Blank(b, 8, 4) == before + W.ZeroBytes(k) + [];
    assert W.Blank(c, 8, 4) == before + HEAD[..k] + [];
    assert b[8..12] == c[8..12];
    if k <= 4 {
      Crc32c.FourBytesDetected(0, before, W.ZeroBytes(k), HEAD[..k], []);
    } else {
      LastFive(k);
      var tail := HEAD[..k][5..];
      assert before + W.ZeroBytes(k) + [] == before + W.ZeroBytes(k)[..5] + tail;
      assert before + HEAD[..k] + [] == before + HEAD[..5] + tail;
      Crc32c.FiveBytesDetected(0, before, W.ZeroBytes(k)[..5], HEAD[..5], tail);
    }
    assert Crc32c.Crc(W.Blank(b, 8, 4)) != Crc32c.Crc(W.Blank(c, 8, 4)) by {
      CrcIs(W.Blank(b, 8, 4));
      CrcIs(W.Blank(c, 8, 4));
    }
  }

  lemma {:induction false} CrcIs(b: seq<u8>)
    ensures Crc32c.Crc(b) == Crc32c.Continue(0, b)
  {
  }

  lemma {:induction false} LastFive(k: nat)
    requires 5 <= k <= 6
    ensures var z := W.ZeroBytes(k); z == z[..5] + HEAD[..k][5..] && HEAD[..k] == HEAD[..5] + HEAD[..k][5..]
    ensures var z := W.ZeroBytes(k)[..5]; z[0] == 0 == z[4] && HEAD[..5][0] == 0x52 && HEAD[..5][4] == 1
  {
  }

  /** Nothing behind a torn header is read. */
  lemma {:induction false} TornHeaderRefused(first: J.Record, n: nat, head: seq<u8>, rest: seq<u8>)
    requires J.Whole(first, J.MAX_RECORD_BYTES) && 58 <= n < J.HEADER_SIZE && Blocking(first, n)
    requires |head| >= 6 && head[..6] == HEAD
    ensures var journal := J.Bytes(first)[..n] + head + rest;
            |journal| >= J.HEADER_SIZE && J.Replay(journal, J.MAX_RECORD_BYTES).status == J.Corrupt
  {
    hide J.ComputedCrc, J.EncodeHeader, J.RawHeader, W.SealOk, W.ZeroBytes;
    var b := J.EncodeHeader(first.header);
    J.RawEncode(first.header);
    J.DecodeSeal(b);
    var torn := J.Bytes(first)[..n];
    assert torn == b[..n] && J.Bytes(first)[n..J.HEADER_SIZE] == b[n..];
    OverwrittenHeader(b, n);
    var journal := torn + head + rest;
    var c := b[..n] + HEAD[..J.HEADER_SIZE - n];
    assert journal[..J.HEADER_SIZE] == c by {
      assert head[..J.HEADER_SIZE - n] == head[..6][..J.HEADER_SIZE - n];
    }
    J.DecodeSeal(c);
    assert J.Look(journal, J.MAX_RECORD_BYTES).Refused?;
  }

  /** Nor is anything behind a payload short of its last bytes. */
  lemma {:induction false} TornPayloadRefused(first: J.Record, n: nat, head: seq<u8>, rest: seq<u8>)
    requires J.Whole(first, J.MAX_RECORD_BYTES) && J.HEADER_SIZE <= n < |J.Bytes(first)| && Blocking(first, n)
    requires |head| >= 6 && head[..6] == HEAD
    ensures J.Replay(J.Bytes(first)[..n] + head + rest, J.MAX_RECORD_BYTES).status == J.Corrupt
  {
    hide J.ComputedCrc, J.EncodeHeader, J.RawHeader, Crc32c.Crc;
    J.RawEncode(first.header);
    var p, m := first.payload, |J.Bytes(first)| - n;
    var journal := J.Bytes(first)[..n] + head + rest;
    var kept := p[..n - J.HEADER_SIZE];
    assert journal[..J.HEADER_SIZE] == J.EncodeHeader(first.header);
    assert head[..m] == head[..6][..m];
    assert journal[J.HEADER_SIZE..J.HEADER_SIZE + |p|] == kept + HEAD[..m] + [];
    assert p == kept + J.Bytes(first)[n..] + [];
    Crc32c.FourBytesDetected(0, kept, J.Bytes(first)[n..], HEAD[..m], []);
    CrcIs(p);
    CrcIs(kept + HEAD[..m] + []);
    assert J.Look(journal, J.MAX_RECORD_BYTES).Refused?;
  }

  /** Any tear inside the first record leaves a journal that opens as empty and is not
      cut. Once a record has been appended behind a blocking tear the journal is refused
      as corrupt, and with it every commit made since. */
  lemma {:induction false} TornFirstRecordBlocks(snapshot: Option<seq<u8>>, o: Options, detail: seq<u8>,
                                                 first: J.Record, n: nat,
                              next: J.Record, more: seq<u8>)
    requires J.Whole(first, J.MAX_RECORD_BYTES) && J.Whole(next, J.MAX_RECORD_BYTES)
    requires n < |J.Bytes(first)| <= J.MAX_JOURNAL_BYTES && Start(snapshot, o).Started?
    ensures var torn := J.Bytes(first)[..n];
            && Open(Disk(snapshot, torn), o, detail).Opened? && Open(Disk(snapshot, torn), o, detail).journal == torn
            && (Blocking(first, n) && |torn + J.Bytes(next) + more| <= J.MAX_JOURNAL_BYTES ==>
                  Open(Disk(snapshot, torn + J.Bytes(next) + more), o, detail) == Refused(CorruptJournal))
  {
    hide J.Whole, J.Bytes, J.DecodeHeader, J.Look, Start, Finished, Digest, Blocking;
    StartsWith(next);
    var torn := J.Bytes(first)[..n];
    FlatNothing();
    assert J.Flat([]) + torn == torn;
    J.ScanAppended([], torn, first, J.MAX_RECORD_BYTES);
    if Blocking(first, n) {
      var journal := torn + J.Bytes(next) + more;
      if n >= J.HEADER_SIZE {
        TornPayloadRefused(first, n, J.Bytes(next), more);
      } else if n >= 58 {
        TornHeaderRefused(first, n, J.Bytes(next), more);
      } else {
        ShortTearRefused(first, n, J.Bytes(next), more);
      }
    }
  }

  lemma {:induction false} ShortTearRefused(first: J.Record, n: nat, head: seq<u8>, rest: seq<u8>)
    requires J.Whole(first, J.MAX_RECORD_BYTES) && n < 58 && n < |J.Bytes(first)| && Blocking(first, n)
    requires |head| >= J.HEADER_SIZE && head[..6] == HEAD
    ensures J.Replay(J.Bytes(first)[..n] + head + rest, J.MAX_RECORD_BYTES).status == J.Corrupt
  {
    hide J.Whole, J.Bytes, J.DecodeHeader, J.Look, J.Replay;
    StartsWith(first);
    var torn := J.Bytes(first)[..n];
    var journal := torn + head + rest;
    assert torn == J.Bytes(first)[..6][..n] && head[..5] == head[..6][..5];
    assert torn == [0x52, 0x46, 0x43, 0x4E, 1][..|torn|];
    GarbledHead(torn, head);
    var start := journal[..J.HEADER_SIZE];
    assert start[..4] == (torn + head)[..4] && start[4..6] == (torn + head)[4..6];
    GarbledRefused(journal);
  }

  lemma {:induction false} GarbledRefused(journal: seq<u8>)
    requires |journal| >= J.HEADER_SIZE
    requires journal[..J.HEADER_SIZE][..4] != [0x52, 0x46, 0x43, 0x4E] || journal[..J.HEADER_SIZE][4..6] != [1, 0]
    ensures J.Replay(journal, J.MAX_RECORD_BYTES).status == J.Corrupt
  {
    hide J.DecodeHeader;
    FirstSix();
    HeadBytes(journal[..J.HEADER_SIZE]);
    assert J.Look(journal, J.MAX_RECORD_BYTES).Refused?;
  }

  // ---- A checkpoint beyond the record limit ---------------------------------

  const BLANK_REVALIDATION: Row :=
    [Num(0), Num(0), Num(0), Num(0), Num(0), Bit(false), Bit(false), Bit(false), Num(0), Num(0), Note([])]
  const BLANK_ATTEMPT: Row := [Num(0), Num(0), Num(0), Num(0), Num(0), Num(0), Num(0), Num(0), Note([])]

  lemma {:induction false} BlankRowsGood()
    ensures Good(REVALIDATION, BLANK_REVALIDATION) && Good(ATTEMPT_RECORD, BLANK_ATTEMPT)
  {
    hide Fits, Encode;
    SpanValues();
    FitsWhen(REVALIDATION_LAYOUT, BLANK_REVALIDATION);
    EncodeBound(REVALIDATION_LAYOUT, BLANK_REVALIDATION, 1028);
    FitsWhen(ATTEMPT_LAYOUT, BLANK_ATTEMPT);
    EncodeBound(ATTEMPT_LAYOUT, BLANK_ATTEMPT, 1028);
  }

  const SMALL := Options(1, 1, 1, 30, 1, 1, false, true)

  /** Attempts and revalidations at their shared bound, nothing else. */
  const CROWDED := EMPTY.(attempts := seq(30, i => BLANK_ATTEMPT), revalidations := seq(30, i => BLANK_REVALIDATION))

  // ---- Documents that runs reach --------------------------------------------

  const STAMP := Stamp(0, 0, 0, 0)

  /** A document without what every commit stamps on it. */
  function Unstamped(d: Document): Document {
    d.(authority := 0, mutations := 0, lastSequence := 0)
  }

  /** Open a new store and commit each entry. */
  function Script(es: seq<Entry>): (r: seq<Event>)
    requires AllEntriesGood(es)
    ensures |r| == |es| + 1
  {
    [Boot([])] + seq(|es|, i requires 0 <= i < |es| =>
      Mutate(es[i].kind, Encode(Columns(es[i].kind), es[i].row), STAMP))
  }

  /** No commit of the entries meets a retention bound or the domain bound. */
  predicate Unpruned(es: seq<Entry>, o: Options) {
    forall i | 0 <= i < |es| :: UnprunedAt(es, i, o)
  }

  predicate UnprunedAt(es: seq<Entry>, i: nat, o: Options)
    requires i < |es|
  {
    && Prune(Fold(EMPTY, es[..i + 1]), o) == Fold(EMPTY, es[..i + 1])
    && (es[i].kind == DOMAIN_STATE ==> |Fold(EMPTY, es[..i]).domains| < o.maxDomains)
  }

  lemma {:induction false} ApplyUnstamped(d: Document, kind: u16, row: Row, o: Options)
    ensures Unstamped(Apply(d, kind, row)) == Apply(Unstamped(d), kind, row)
    ensures Unstamped(Prune(d, o)) == Prune(Unstamped(d), o)
  {
  }

  lemma {:induction false} FoldNext(es: seq<Entry>, n: nat)
    requires n < |es|
    ensures Fold(EMPTY, es[..n + 1]) == Apply(Fold(EMPTY, es[..n]), es[n].kind, es[n].row)
  {
    hide Apply;
    assert es[..n + 1] == es[..n] + [es[n]];
    FoldConcat(EMPTY, es[..n], [es[n]]);
    assert [es[n]][1..] == [];
  }

  /** A good entry passes the checks of a commit, and the journal takes its three records. */
  lemma {:induction false} EntryPlanned(d: Document, next: u64, size: nat, o: Options, e: Entry)
    requires Good(e.kind, e.row) && !o.readOnly && next + 3 <= MAX_U64
    requires size + 0x50_0000 <= J.MAX_JOURNAL_BYTES && (e.kind == DOMAIN_STATE ==> |d.domains| < o.maxDomains)
    ensures var w := Plan(d, next, size, o, e.kind, Encode(Columns(e.kind), e.row), STAMP);
            && w.Writing? && w.count == |w.records| == 3 && w.framed == Payload(e)
            && Meaning(w.framed) == Some((e.kind, e.row)) && |J.Flat(w.records)| <= 0x50_0000
  {
    hide Encode, DecodeBody, Transaction, Written, J.Flat, Meaning, Columns, Admissible, Fits, Canonical;
    var body := Encode(Columns(e.kind), e.row);
    BodyRoundTrip(e.kind, e.row, []);
    assert body + [] == body;
    MeaningOf(e);
    var rs := Transaction(e.kind, Frame(e.kind, body), STAMP, next);
    TransactionSizes(e.kind, Frame(e.kind, body), STAMP, next);
    ThreeWritten(o, size, rs);
  }

  lemma {:induction false} TransactionSizes(kind: u16, framed: seq<u8>, stamp: Stamp, at: u64)
    requires |framed| <= J.MAX_RECORD_BYTES
    ensures var rs := Transaction(kind, framed, stamp, at);
            |rs[0].payload| == 18 && rs[1].payload == framed && |rs[2].payload| == 6
  {
    hide J.Whole, J.ComputedCrc;
  }

  lemma {:induction false} ThreeWritten(o: Options, size: nat, rs: seq<J.Record>)
    requires |rs| == 3 && !o.readOnly && size + 0x50_0000 <= J.MAX_JOURNAL_BYTES
    requires |rs[0].payload| == 18 && |rs[1].payload| <= J.MAX_RECORD_BYTES && |rs[2].payload| == 6
    ensures Written(o, size, rs) == 3 && |J.Flat(rs)| <= 0x50_0000
  {
    hide J.EncodeHeader;
    var m, n := rs[1..], rs[1..][1..];
    assert m[0] == rs[1] && n[0] == rs[2] && n[1..] == [];
    var s1, s2 := size + |J.Bytes(rs[0])|, size + |J.Bytes(rs[0])| + |J.Bytes(rs[1])|;
    assert Written(o, s2 + |J.Bytes(rs[2])|, n[1..]) == 0;
    assert Written(o, s2, n) == 1;
    assert Written(o, s1, m) == 2;
    assert J.Flat(n) == J.Bytes(rs[2]) + J.Flat([]);
    assert J.Flat(m) == J.Bytes(rs[1]) + J.Flat(n);
  }

  /** What the store is after `n` of the commits. */
  ghost predicate Reached(s: System, es: seq<Entry>, n: nat)
    requires n <= |es| && AllEntriesGood(es)
  {
    && s.process.Up? && s.process.next == 3 * n + 1 && Unstamped(s.process.document) == Fold(EMPTY, es[..n])
    && s.disk.snapshot == None && |s.disk.journal| <= n * 0x50_0000
    && |s.committed| == n && forall i | 0 <= i < n :: s.committed[i] == Commit(Payload(es[i]), true)
  }

  lemma {:induction false} ActMutate(d: Document, next: u64, disk: Disk, cs: seq<Commit>, o: Options, kind: u16,
                                     body: seq<u8>, row: Row, w: Writing)
    requires w == Plan(d, next, |disk.journal|, o, kind, body, STAMP) && next + 3 <= MAX_U64
    requires w.Writing? && w.count == |w.records| == 3 && Meaning(w.framed) == Some((kind, row))
    ensures var e := Apply(d, kind, row);
            var f := e.(lastSequence := next + 2, authority := 0, mutations := Bumped(e.mutations));
            Act(System(disk, Up(d, next), cs), Mutate(kind, body, STAMP), o)
            == System(disk.(journal := disk.journal + J.Flat(w.records)), Up(Prune(f, o), next + 3),
                      cs + [Commit(w.framed, true)])
  {
    hide Plan, Meaning, Apply, Prune, J.Flat, Wrapped, Open, Compact, WellFormed, SnapshotBytes, J.Bytes, MarkRecord,
        MutateCut, Replaced;
    NotWrapped(next + 2);
    NotWrapped(next + 3);
    assert w.records[..3] == w.records;
  }

  lemma {:induction false} ScriptAt(es: seq<Entry>, n: nat)
    requires AllEntriesGood(es) && n < |es|
    ensures Good(es[n].kind, es[n].row)
    ensures Script(es)[n + 1] == Mutate(es[n].kind, Encode(Columns(es[n].kind), es[n].row), STAMP)
  {
    hide Encode, Good;
    assert es[n] in es;
  }

  lemma {:induction false} EntryReached(s: System, es: seq<Entry>, n: nat, o: Options)
    requires n < |es| <= 1000 && AllEntriesGood(es) && Unpruned(es, o) && !o.readOnly && Reached(s, es, n)
    ensures Reached(Act(s, Script(es)[n + 1], o), es, n + 1)
  {
    hide Encode, Payload, Prune, Apply, Meaning, Fold, J.Flat, Plan, Script, Act, Unstamped, Good, AllEntriesGood,
        Columns, Unpruned, Reached;
    ReachedIs(s, es, n);
    var e, d, next := es[n], s.process.document, s.process.next;
    ScriptAt(es, n);
    GoodFits(e);
    RoomLeft(d, es, n, o);
    CommitGrows(s, o, e);
    StampedNext(d, es, n, o, next + 2);
    ReachedMore(s, es, n, Act(s, Script(es)[n + 1], o));
  }

  /** Committing a good entry takes, and leaves it applied, stamped and pruned. */
  lemma {:induction false} CommitGrows(s: System, o: Options, e: Entry)
    requires Good(e.kind, e.row) && !o.readOnly && s.process.Up? && s.process.next + 3 <= MAX_U64
    requires |s.disk.journal| + 0x50_0000 <= J.MAX_JOURNAL_BYTES
    requires e.kind == DOMAIN_STATE ==> |s.process.document.domains| < o.maxDomains
    ensures var t := Act(s, Mutate(e.kind, Encode(Columns(e.kind), e.row), STAMP), o);
            var next, f := s.process.next, Apply(s.process.document, e.kind, e.row);
            && t.process == Up(Prune(f.(lastSequence := next + 2, authority := 0, mutations := Bumped(f.mutations)), o),
                               next + 3)
            && t.disk.snapshot == s.disk.snapshot && |t.disk.journal| <= |s.disk.journal| + 0x50_0000
            && t.committed == s.committed + [Commit(Payload(e), true)]
  {
    hide Encode, Payload, Prune, Apply, Meaning, J.Flat, Plan, Act, Columns, Stored;
    GoodFits(e);
    var d, next := s.process.document, s.process.next;
    var body := Encode(Columns(e.kind), e.row);
    EntryPlanned(d, next, |s.disk.journal|, o, e);
    ActMutate(d, next, s.disk, s.committed, o, e.kind, body, e.row,
              Plan(d, next, |s.disk.journal|, o, e.kind, body, STAMP));
  }

  lemma {:induction false} ReachedIs(s: System, es: seq<Entry>, n: nat)
    requires n <= |es| <= 1000 && AllEntriesGood(es) && Reached(s, es, n)
    ensures s.process.Up? && s.process.next == 3 * n + 1 && Unstamped(s.process.document) == Fold(EMPTY, es[..n])
    ensures |s.disk.journal| + 0x50_0000 <= J.MAX_JOURNAL_BYTES
  {
    hide Payload, Good, Fold;
  }

  lemma {:induction false} ReachedMore(s: System, es: seq<Entry>, n: nat, t: System)
    requires n < |es| && AllEntriesGood(es) && Reached(s, es, n)
    requires t.process.Up? && t.process.next == s.process.next + 3
    requires Unstamped(t.process.document) == Fold(EMPTY, es[..n + 1])
    requires t.disk.snapshot == s.disk.snapshot && |t.disk.journal| <= |s.disk.journal| + 0x50_0000
    requires Good(es[n].kind, es[n].row) && t.committed == s.committed + [Commit(Payload(es[n]), true)]
    ensures Reached(t, es, n + 1)
  {
    hide Payload, Good, Fold;
  }

  lemma {:induction false} GoodFits(e: Entry)
    requires Good(e.kind, e.row)
    ensures Fits(Columns(e.kind), e.row)
  {
  }

  lemma {:induction false} RoomLeft(d: Document, es: seq<Entry>, n: nat, o: Options)
    requires n < |es| && Unpruned(es, o) && Unstamped(d) == Fold(EMPTY, es[..n])
    ensures es[n].kind == DOMAIN_STATE ==> |d.domains| < o.maxDomains
  {
    hide Fold, Prune;
    assert UnprunedAt(es, n, o);
  }

  lemma {:induction false} StampedNext(d: Document, es: seq<Entry>, n: nat, o: Options, last: u64)
    requires n < |es| && Unpruned(es, o) && Unstamped(d) == Fold(EMPTY, es[..n])
    ensures var f := Apply(d, es[n].kind, es[n].row);
            Unstamped(Prune(f.(lastSequence := last, authority := 0, mutations := Bumped(f.mutations)), o))
            == Fold(EMPTY, es[..n + 1])
  {
    hide Fold, Prune, Apply;
    assert UnprunedAt(es, n, o);
    FoldNext(es, n);
    ApplyUnstamped(d, es[n].kind, es[n].row, o);
    var f := Apply(d, es[n].kind, es[n].row);
    ApplyUnstamped(f.(lastSequence := last, authority := 0, mutations := Bumped(f.mutations)), es[n].kind, es[n].row, o);
  }

  /** Every fold of good entries within the bounds is reached by a run of a new store. */
  lemma {:induction false} ScriptReaches(es: seq<Entry>, o: Options, n: nat)
    requires n <= |es| <= 1000 && AllEntriesGood(es) && Unpruned(es, o) && !o.readOnly
    ensures Reached(Run(Script(es)[..n + 1], o), es, n)
    decreases n
  {
    hide Reached, Act, AllEntriesGood, Unpruned;
    var script := Script(es);
    if n == 0 {
      hide Script;
      assert script[..1][..0] == [] && script[..1][0] == Boot([]);
      FirstBoot(es, o);
    } else {
      hide Script;
      ScriptReaches(es, o, n - 1);
      EntryReached(Run(script[..n], o), es, n - 1, o);
      assert script[..n + 1][..n] == script[..n] && script[..n + 1][n] == script[n];
    }
  }

  lemma {:induction false} FirstBoot(es: seq<Entry>, o: Options)
    requires AllEntriesGood(es)
    ensures Script(es)[0] == Boot([]) && Reached(Act(FRESH_SYSTEM, Boot([]), o), es, 0)
  {
    hide Payload, Encode;
    assert J.Scan([], J.MAX_RECORD_BYTES) == J.Scanned([], 0, J.Clean);
    assert Ambiguous(map[], 0, []) == [];
    assert es[..0] == [];
  }

  // ---- A bounded document that does not survive its checkpoint --------------

  const CROWD: seq<Entry> := Tagged(ATTEMPT_RECORD, CROWDED.attempts) + Tagged(REVALIDATION, CROWDED.revalidations)

  lemma {:induction false} CrowdFolds(n: nat)
    requires n <= 60
    ensures Fold(EMPTY, CROWD[..n])
         == EMPTY.(attempts := CROWDED.attempts[..if n <= 30 then n else 30],
                   revalidations := CROWDED.revalidations[..if n <= 30 then 0 else n - 30])
    decreases n
  {
    if n == 0 {
      assert CROWD[..0] == [];
    } else {
      CrowdFolds(n - 1);
      FoldNext(CROWD, n - 1);
    }
  }

  lemma {:induction false} CrowdGood()
    ensures |CROWD| == 60 && AllEntriesGood(CROWD) && Unpruned(CROWD, SMALL) && Fold(EMPTY, CROWD) == CROWDED
  {
    hide Good;
    BlankRowsGood();
    forall i | 0 <= i < 60
      ensures UnprunedAt(CROWD, i, SMALL)
    {
      CrowdFolds(i + 1);
    }
    CrowdFolds(60);
    assert CROWD[..60] == CROWD;
  }

  lemma {:induction false} CrowdedWellFormed(d: Document)
    requires Unstamped(d) == CROWDED
    ensures WellFormed(d) && Compact(d) && |Entries(d)| == 60
  {
    hide Good, Compact, Entries;
    BlankRowsGood();
    assert forall k: u16 | IsList(k) :: Arranged(k, List(d, k)) && AllGood(k, List(d, k));
    CrowdedEntries(d);
    FewAreCompact(d);
  }

  /** Every list within its retention bound is not enough: revalidations have no share in
      the record limit. This run commits sixty entries, stays below the bounds throughout
      and takes a checkpoint; the tolerant open after it has lost all of them. */
  lemma {:induction false} BoundsDoNotSuffice()
    ensures AllEntriesGood(CROWD)
    ensures var s := Run(Script(CROWD) + [Compaction, Kill], SMALL); var r := Open(s.disk, SMALL, []);
            && |s.committed| == 60 && (forall c | c in s.committed :: c.acknowledged)
            && BelowBounds(FoldPayloads(EMPTY, Payloads(s.committed)), SMALL)
            && |FoldPayloads(EMPTY, Payloads(s.committed)).revalidations| == 30
            && r.Opened? && Core(r.document) == EMPTY
  {
    hide Script, Reached, Run, Act, Open, Core, AllEntriesGood, FoldPayloads, Fold, Unpruned, Unstamped;
    CrowdGood();
    ScriptReaches(CROWD, SMALL, 60);
    var script := Script(CROWD);
    assert script[..61] == script;
    CrowdReached(Run(script, SMALL));
    RunTwo(script, SMALL);
    LostAtCheckpoint(Run(script, SMALL));
  }

  lemma {:induction false} LostAtCheckpoint(s: System)
    requires s.process.Up? && s.process.next == 181 && Unstamped(s.process.document) == CROWDED
    ensures var t := Act(Act(s, Compaction, SMALL), Kill, SMALL);
            t.committed == s.committed && Open(t.disk, SMALL, []).Opened? && Core(Open(t.disk, SMALL, []).document) == EMPTY
  {
    hide Entries, SnapshotBytes, Compact, WellFormed, Start, J.Bytes, MarkRecord, Unstamped, Open, Core;
    var d, next := s.process.document, s.process.next;
    CrowdedWellFormed(d);
    CheckpointRestores(d, SMALL);
    var t := Act(Act(s, Compaction, SMALL), Kill, SMALL);
    assert t.disk == Disk(Some(SnapshotBytes(d)), J.Bytes(MarkRecord(d, next))) && t.committed == s.committed;
    MarkOpens(d, next, t.disk, SMALL);
  }

  lemma {:induction false} CrowdReached(s: System)
    requires AllEntriesGood(CROWD) && |CROWD| == 60 && Fold(EMPTY, CROWD) == CROWDED && Reached(s, CROWD, 60)
    ensures s.process.Up? && s.process.next == 181 && Unstamped(s.process.document) == CROWDED && |s.committed| == 60
    ensures forall c | c in s.committed :: c.acknowledged
    ensures var f := FoldPayloads(EMPTY, Payloads(s.committed)); BelowBounds(f, SMALL) && |f.revalidations| == 30
  {
    hide Payload, Good, Fold;
    assert CROWD[..60] == CROWD;
    var ps := Payloads(s.committed);
    assert forall i | 0 <= i < 60 :: ps[i] == Payload(CROWD[i]);
    FoldOfPayloads(EMPTY, CROWD, ps);
  }

  lemma {:induction false} FoldOfPayloads(d: Document, es: seq<Entry>, ps: seq<seq<u8>>)
    requires AllEntriesGood(es) && |ps| == |es| && forall i | 0 <= i < |es| :: ps[i] == Payload(es[i])
    ensures FoldPayloads(d, ps) == Fold(d, es)
    decreases |es|
  {
    hide Good, Payload, Apply, Meaning;
    if es != [] {
      assert es[0] in es && forall e | e in es[1..] :: e in es;
      MeaningOf(es[0]);
      FoldOfPayloads(Apply(d, es[0].kind, es[0].row), es[1..], ps[1..]);
    }
  }

  lemma {:induction false} RunTwo(es: seq<Event>, o: Options)
    ensures Run(es + [Compaction, Kill], o) == Act(Act(Run(es, o), Compaction, o), Kill, o)
  {
    hide Act;
    var all := es + [Compaction, Kill];
    var front := all[..|all| - 1];
    assert front == es + [Compaction] && front[..|front| - 1] == es;
  }

  /** A disk whose snapshot is refused and whose journal is a mark opens as an empty store. */
  lemma {:induction false} MarkOpens(d: Document, next: u64, disk: Disk, o: Options)
    requires disk.journal == J.Bytes(MarkRecord(d, next)) && Start(disk.snapshot, o) == Started(EMPTY, false)
    ensures Open(disk, o, []).Opened? && Core(Open(disk, o, []).document) == EMPTY
  {
    hide J.Make, J.Bytes, J.Whole, J.Flat, Start, Open, Records, MarkRecord, ChunkOk;
    MarkChunk(d, next);
    NoTear();
    var m, c := MarkRecord(d, next), Mark(next, Wrapped(d.epoch), d.authority);
    assert JournalIs(disk.journal, [c], []);
    MarkSize(d, next);
    OpenIs(disk, o, [], [c], []);
    MarkKind(d, next);
    MarkDigest(m);
  }

  lemma {:induction false} MarkDigest(m: J.Record)
    requires m.header.kind == J.REBASE
    ensures var s := Digest(Replaying(EMPTY, map[]), [m]);
            Core(Finished(s, [])) == EMPTY
  {
    assert [m][1..] == [];
    assert Digest(Replaying(EMPTY, map[]), [m]) == Digest(Take(Replaying(EMPTY, map[]), m), []);
    assert Ambiguous(map[], 0, []) == [];
  }

  lemma {:induction false} MarkKind(d: Document, next: u64)
    ensures MarkRecord(d, next).header.kind == J.REBASE
  {
  }

  /** Up to 500 records of any size fit a container. */
  lemma {:induction false} FewAreCompact(d: Document)
    requires WellFormed(d) && |Entries(d)| <= 500
    ensures Compact(d)
  {
    hide WellFormed, CheckpointRecords, Entries;
    PayloadTotal(CheckpointRecords(d));
  }

  lemma {:induction false} PayloadTotal(rs: seq<J.Record>)
    requires S.PayloadsBounded(rs)
    ensures S.PayloadBytes(rs) <= |rs| * J.MAX_RECORD_BYTES
  {
    if rs != [] {
      assert rs[0] in rs && forall r | r in rs[1..] :: r in rs;
      PayloadTotal(rs[1..]);
    }
  }

  lemma {:induction false} CrowdedEntries(d: Document)
    requires Unstamped(d) == CROWDED
    ensures |Entries(d)| == 60
  {
    hide ListEntries;
    SplitEntries(d);
    ListsCount(d, LIST_ORDER, 0);
    ListsCount(d, LIST_ORDER, 1);
    ListsCount(d, LIST_ORDER, 2);
    ListsCount(d, LIST_ORDER, 3);
    ListsCount(d, LIST_ORDER, 4);
    ListsCount(d, LIST_ORDER, 5);
    ListsCount(d, LIST_ORDER, 6);
    ListsCount(d, LIST_ORDER, 7);
    assert LIST_ORDER[0..] == LIST_ORDER;
    ListsNamed(d);
  }

  lemma {:induction false} ListsCount(d: Document, kinds: seq<u16>, i: nat)
    requires i <= |kinds|
    ensures i < |kinds| ==> |ListEntries(d, kinds[i..])| == |List(d, kinds[i])| + |ListEntries(d, kinds[i + 1..])|
    ensures i == |kinds| ==> ListEntries(d, kinds[i..]) == []
  {
    hide List;
    if i < |kinds| {
      assert kinds[i..][1..] == kinds[i + 1..];
    }
  }
}
