/** Writing the document as a snapshot and starting from one
    (src/durability/store.cpp: `checkpoint`, the snapshot half of `open`). */
module Checkpoint {
  import opened Words
  import opened Model
  import opened Layout
  import opened StoreCodec
  import opened Document
  import J = Journal
  import S = Snapshot

  datatype Options = Options(
    maxHistory: nat, maxInterventions: nat, maxFences: nat, maxAttempts: nat, maxProvenance: nat, maxDomains: nat,
    readOnly: bool, tolerateCorruptSnapshot: bool)

  /** The record count an open accepts; revalidations have no share of their own in it. */
  function SnapshotLimit(o: Options): nat {
    o.maxHistory + o.maxDomains + o.maxInterventions + o.maxFences + o.maxAttempts + o.maxProvenance + 8
  }

  // ---- Writing --------------------------------------------------------------

  predicate AllEntriesGood(es: seq<Entry>) {
    forall e | e in es :: Good(e.kind, e.row)
  }

  function Payload(e: Entry): (p: seq<u8>)
    requires Good(e.kind, e.row)
    ensures |p| <= J.MAX_RECORD_BYTES
  {
    Frame(e.kind, Encode(Columns(e.kind), e.row))
  }

  function RecordOf(e: Entry, sequence: nat, epoch: u64): (r: J.Record)
    requires Good(e.kind, e.row)
    ensures r.payload == Payload(e)
  {
    J.Record(J.Header(J.RECORD_MAGIC, J.FORMAT_VERSION, J.PAYLOAD, 0, 0, 0, 0, sequence % (MAX_U64 + 1), epoch, 0, 0,
        0, 0),
             Payload(e))
  }

  function RecordsOf(es: seq<Entry>, sequence: nat, epoch: u64): (rs: seq<J.Record>)
    requires AllEntriesGood(es)
    ensures |rs| == |es| && S.PayloadsBounded(rs)
    ensures forall i | 0 <= i < |es| :: rs[i] == RecordOf(es[i], sequence + i, epoch)
  {
    seq(|es|, i requires 0 <= i < |es| => RecordOf(es[i], sequence + i, epoch))
  }

  /** The entries of a well-formed document are all writable, and its numbers fit the header. */
  lemma {:induction false} EntriesGood(d: Document)
    requires WellFormed(d)
    ensures AllEntriesGood(Entries(d))
    ensures d.epoch <= MAX_U64 && d.boot <= MAX_U64 && d.bootCounter <= MAX_U64
  {
    hide Entries, Good, ListEntries;
    SplitEntries(d);
    ListOrder();
    ListEntriesGood(d, LIST_ORDER);
    forall k: u16 | IsSlot(k)
      ensures AllEntriesGood(SlotEntry(d, k))
    {
    }
    EpochEntryGood(d);
  }

  lemma {:induction false} EpochEntryGood(d: Document)
    requires EpochOk(d)
    ensures AllEntriesGood(EpochEntry(d))
    ensures d.epoch <= MAX_U64 && d.boot <= MAX_U64 && d.bootCounter <= MAX_U64
  {
    if Good(EPOCH_ADVANCE, EpochRow(d)) {
      hide Encode;
      SpanValues();
      FitsAt(EPOCH_LAYOUT, EpochRow(d), 0);
      FitsAt(EPOCH_LAYOUT, EpochRow(d), 1);
      FitsAt(EPOCH_LAYOUT, EpochRow(d), 2);
    }
  }

  lemma {:induction false} ListEntriesGood(d: Document, kinds: seq<u16>)
    requires WellFormed(d) && forall k | k in kinds :: IsList(k)
    ensures AllEntriesGood(ListEntries(d, kinds))
    decreases |kinds|
  {
    hide Good, List, IsList;
    if kinds != [] {
      var k := kinds[0];
      assert AllGood(k, List(d, k));
      assert forall j | j in kinds[1..] :: j in kinds;
      ListEntriesGood(d, kinds[1..]);
    }
  }

  /** The snapshot header a checkpoint starts from. */
  function HeaderFor(d: Document): S.SnapHeader
    requires d.epoch <= MAX_U64 && d.boot <= MAX_U64 && d.bootCounter <= MAX_U64
  {
    S.SnapHeader(S.SNAPSHOT_MAGIC, 0, 0, 0, 0, d.epoch, d.boot, d.bootCounter, d.lastSequence, 0, 0, 0, 0)
  }

  function CheckpointRecords(d: Document): (rs: seq<J.Record>)
    requires WellFormed(d)
    ensures |rs| == |Entries(d)| && S.PayloadsBounded(rs)
  {
    EntriesGood(d);
    RecordsOf(Entries(d), 1, d.epoch)
  }

  /** The container fits the snapshot bound. */
  predicate Compact(d: Document)
    requires WellFormed(d)
  {
    S.ContainerSize(CheckpointRecords(d)) <= S.MAX_SNAPSHOT_BYTES
  }

  /** The bytes a checkpoint leaves in the snapshot file. */
  function SnapshotBytes(d: Document): seq<u8>
    requires WellFormed(d) && Compact(d)
  {
    EntriesGood(d);
    SizesFit(d);
    S.Container(HeaderFor(d), S.FramedAll(CheckpointRecords(d)))
  }

  lemma {:induction false} SizesFit(d: Document)
    requires WellFormed(d) && Compact(d)
    ensures var fs := S.FramedAll(CheckpointRecords(d));
            && |fs| <= MAX_U64 && S.PayloadBytes(fs) <= MAX_U64
            && S.SNAP_HEADER + |J.Flat(fs)| + S.SNAP_FOOTER <= S.MAX_SNAPSHOT_BYTES
  {
    hide WellFormed, CheckpointRecords, J.Flat;
    S.FramedPayloads(CheckpointRecords(d));
    S.FlatSize(S.FramedAll(CheckpointRecords(d)));
  }

  // ---- Starting from a snapshot ---------------------------------------------

  datatype Loaded = Loaded(document: Document, complete: bool)

  /** Apply records until one says nothing. */
  function Load(d: Document, rs: seq<J.Record>): Loaded
    decreases |rs|
  {
    if rs == [] then Loaded(d, true)
    else
      match ApplyPayload(d, rs[0].payload)
      case None => Loaded(d, false)
      case Some(e) => Load(e, rs[1..])
  }

  datatype Started = Started(document: Document, loaded: bool) | Failed(error: S.SnapError)

  function Start(snapshot: Option<seq<u8>>, o: Options): Started {
    match snapshot
    case None => Started(EMPTY, false)
    case Some(bytes) =>
      match S.Read(bytes, SnapshotLimit(o), S.MAX_SNAPSHOT_BYTES)
      case Err(e) => if o.tolerateCorruptSnapshot then Started(EMPTY, false) else Failed(e)
      case Ok(contents) =>
        var h := contents.header;
        var l := Load(FromHeader(h.epoch, h.boot, h.bootCounter, h.lastSequence), contents.records);
        Started(l.document, l.complete)
  }

  lemma {:induction false} MeaningOf(e: Entry)
    requires Good(e.kind, e.row)
    ensures Meaning(Payload(e)) == Some((e.kind, e.row))
  {
    hide Encode, DecodeBody;
    var body := Encode(Columns(e.kind), e.row);
    UnframeFrame(e.kind, body);
    BodyRoundTrip(e.kind, e.row, []);
    assert body + [] == body;
  }

  lemma {:induction false} LoadEntries(d: Document, es: seq<Entry>, rs: seq<J.Record>)
    requires AllEntriesGood(es) && |rs| == |es|
    requires forall i | 0 <= i < |es| :: rs[i].payload == Payload(es[i])
    ensures Load(d, rs) == Loaded(Fold(d, es), true)
    decreases |es|
  {
    hide Good, Meaning, Payload;
    if es != [] {
      assert es[0] in es && forall e | e in es[1..] :: e in es;
      MeaningOf(es[0]);
      LoadEntries(Apply(d, es[0].kind, es[0].row), es[1..], rs[1..]);
    }
  }

  /** Applying a checkpoint's records, framed and read back, restores the document. */
  lemma {:induction false} LoadRestores(d: Document)
    requires WellFormed(d)
    ensures Load(FromHeader(d.epoch, d.boot, d.bootCounter, d.lastSequence), S.FramedAll(CheckpointRecords(d)))
         == Loaded(Kept(d), true)
  {
    hide Good, Entries, Payload, S.Framed;
    EntriesGood(d);
    var fs := S.FramedAll(CheckpointRecords(d));
    assert forall i | 0 <= i < |fs| :: fs[i] == S.Framed(CheckpointRecords(d)[i]);
    LoadEntries(FromHeader(d.epoch, d.boot, d.bootCounter, d.lastSequence), Entries(d), fs);
    EntriesRestore(d);
  }

  /** A checkpoint preserves the document: an open starting from it has the same
      document back exactly when its records fit the record limit; otherwise the
      snapshot is refused, and a tolerant open starts from nothing. */
  lemma {:induction false} CheckpointRestores(d: Document, o: Options)
    requires WellFormed(d) && Compact(d)
    ensures Start(Some(SnapshotBytes(d)), o)
         == if |Entries(d)| <= SnapshotLimit(o) then Started(Kept(d), true)
            else if o.tolerateCorruptSnapshot then Started(EMPTY, false) else Failed(S.Oversized)
  {
    hide WellFormed, CheckpointRecords, S.Container, S.Read, S.FinalHeader, Load, J.Whole, Compact, Entries;
    EntriesGood(d);
    SizesFit(d);
    var fs := S.FramedAll(CheckpointRecords(d));
    if |fs| <= SnapshotLimit(o) {
      S.ReadBack(HeaderFor(d), fs, SnapshotLimit(o), S.MAX_SNAPSHOT_BYTES);
      KeepsHeader(HeaderFor(d), |fs|, S.PayloadBytes(fs), S.Rolling(0, fs));
      LoadRestores(d);
    } else {
      S.ReadTooMany(HeaderFor(d), fs, SnapshotLimit(o), S.MAX_SNAPSHOT_BYTES);
    }
  }

  lemma {:induction false} KeepsHeader(h: S.SnapHeader, count: u64, bytes: u64, crc: u32)
    ensures var f := S.FinalHeader(h, count, bytes, crc);
            f.epoch == h.epoch && f.boot == h.boot && f.bootCounter == h.bootCounter && f.lastSequence == h.lastSequence
  {
  }
}
