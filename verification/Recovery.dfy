/** Replaying the journal into a document: the pending transactions, what a commit
    record applies, and what `open` rebuilds (src/durability/store.cpp: `open`). */
module Recovery {
  import opened Words
  import opened Model
  import opened Layout
  import opened StoreCodec
  import opened Document
  import opened Checkpoint
  import J = Journal
  import S = Snapshot
  import C = Crc32c

  // ---- Replaying records ----------------------------------------------------

  datatype Pending = Pending(kind: u16, payload: seq<u8>, hasPayload: bool, sequence: u64)

  const NOTHING_PENDING := Pending(0, [], false, 0)

  datatype Replaying = Replaying(document: Document, pending: map<u64, Pending>)

  function PendingAt(pending: map<u64, Pending>, id: u64): Pending {
    if id in pending then pending[id] else NOTHING_PENDING
  }

  /** The kind an intent announces; zero and the count announce none. */
  function IntentKind(payload: seq<u8>): Option<u16> {
    if |payload| < 2 then None
    else
      UnBound(payload[..2]);
      var kind: u16 := Un(payload[..2]);
      if kind == 0 || kind == KIND_COUNT then None else Some(kind)
  }

  function At(d: Document, sequence: u64): Document {
    d.(lastSequence := sequence)
  }

  /** One record; records at or before the last applied sequence are skipped. */
  function Take(s: Replaying, r: J.Record): Replaying {
    var h, id := r.header, r.header.transaction;
    if h.sequence <= s.document.lastSequence then s
    else if h.kind == J.INTENT then
      match IntentKind(r.payload)
      case None => s
      case Some(kind) => s.(pending := s.pending[id := PendingAt(s.pending, id).(kind := kind, sequence := h.sequence)])
    else if h.kind == J.PAYLOAD then
      var p := PendingAt(s.pending, id);
      s.(pending := s.pending[id := p.(payload := r.payload, hasPayload := true,
                                       sequence := if p.sequence == 0 then h.sequence else p.sequence)])
    else if h.kind == J.COMMIT then
      if !PendingAt(s.pending, id).hasPayload then s
      else
        match ApplyPayload(s.document, PendingAt(s.pending, id).payload)
        case None => s.(pending := s.pending - {id})
        case Some(d) => Replaying(At(d, h.sequence), s.pending - {id})
    else if h.kind == J.ABORT then Replaying(At(s.document, h.sequence), s.pending - {id})
    else if h.kind == J.REBASE then s.(document := At(s.document, h.sequence))
    else s
  }

  function Digest(s: Replaying, rs: seq<J.Record>): Replaying
    decreases |rs|
  {
    if rs == [] then s else Digest(Take(s, rs[0]), rs[1..])
  }

  // ---- Unfinished transactions ----------------------------------------------

  const AMBIGUOUS: nat := 8

  predicate IsLeast(ids: set<u64>, k: u64) {
    k in ids && forall j | j in ids :: k <= j
  }

  lemma {:induction false} HasLeast(ids: set<u64>)
    requires ids != {}
    ensures exists k :: IsLeast(ids, k)
  {
    var x :| x in ids;
    var others := ids - {x};
    if others == {} {
      assert ids == {x};
      assert IsLeast(ids, x);
    } else {
      HasLeast(others);
      var k :| IsLeast(others, k);
      LeastOfBoth(ids, x, k);
    }
  }

  lemma {:induction false} LeastOfBoth(ids: set<u64>, x: u64, k: u64)
    requires x in ids && IsLeast(ids - {x}, k)
    ensures IsLeast(ids, if x < k then x else k)
  {
    assert forall j | j in ids :: j == x || j in ids - {x};
  }

  function Least(ids: set<u64>): (k: u64)
    requires ids != {}
    ensures IsLeast(ids, k)
  {
    HasLeast(ids);
    var k :| IsLeast(ids, k);
    k
  }

  function AmbiguousRow(id: u64, p: Pending, epoch: nat, detail: seq<u8>): Row {
    [Num(id), Num(id), Num(p.kind), Num(AMBIGUOUS), Num(epoch), Num(0), Num(0), Num(0), Note(detail)]
  }

  /** One ambiguous attempt for each pending transaction whose payload was seen, by id. */
  function Ambiguous(pending: map<u64, Pending>, epoch: nat, detail: seq<u8>): seq<Row>
    decreases |pending|
  {
    if pending == map[] then []
    else
      var id := Least(pending.Keys);
      assert |pending - {id}| < |pending| by {
        assert (pending - {id}).Keys == pending.Keys - {id};
      }
      (if pending[id].hasPayload then [AmbiguousRow(id, pending[id], epoch, detail)] else [])
      + Ambiguous(pending - {id}, epoch, detail)
  }

  /** The identities of the transactions whose payload was seen, in order. */
  ghost predicate Unresolved(pending: map<u64, Pending>, ids: seq<u64>) {
    && (forall i, j | 0 <= i < j < |ids| :: ids[i] < ids[j])
    && forall id :: id in ids <==> id in pending && pending[id].hasPayload
  }

  lemma {:induction false} UnresolvedMore(pending: map<u64, Pending>, id: u64, others: seq<u64>)
    requires IsLeast(pending.Keys, id) && Unresolved(pending - {id}, others)
    ensures Unresolved(pending, if pending[id].hasPayload then [id] + others else others)
  {
    var rest := pending - {id};
    forall i | 0 <= i < |others|
      ensures id < others[i]
    {
      assert others[i] in others;
      assert others[i] in pending.Keys;
    }
    var ids := if pending[id].hasPayload then [id] + others else others;
    forall k: u64
      ensures k in ids <==> k in pending && pending[k].hasPayload
    {
      assert k in rest <==> k in pending && k != id;
      assert k != id && k in pending ==> rest[k] == pending[k];
    }
  }

  /** The rows say of each identity that its outcome is unknown. */
  predicate Reports(rows: seq<Row>, pending: map<u64, Pending>, ids: seq<u64>, epoch: nat, detail: seq<u8>) {
    && |rows| == |ids|
    && forall i | 0 <= i < |ids| ::
         && ids[i] in pending
         && rows[i] == [Num(ids[i]), Num(ids[i]), Num(pending[ids[i]].kind), Num(8), Num(epoch), Num(0), Num(0), Num(0),
                        Note(detail)]
  }

  lemma {:induction false} ReportsMore(rows: seq<Row>, pending: map<u64, Pending>, id: u64, others: seq<u64>, epoch: nat,
                                       detail: seq<u8>)
    requires id in pending && Reports(rows, pending - {id}, others, epoch, detail)
    ensures Reports(rows, pending, others, epoch, detail)
    ensures Reports([AmbiguousRow(id, pending[id], epoch, detail)] + rows, pending, [id] + others, epoch, detail)
  {
  }

  /** Every pending transaction whose payload was seen is reported once, in order of identity,
      as an attempt of unknown outcome under its own kind; no other is. */
  lemma {:induction false} AmbiguousExact(pending: map<u64, Pending>, epoch: nat, detail: seq<u8>) returns (ids: seq<u64>)
    ensures Unresolved(pending, ids) && Reports(Ambiguous(pending, epoch, detail), pending, ids, epoch, detail)
    decreases |pending|
  {
    hide Unresolved, Reports, AmbiguousRow;
    if pending == map[] {
      NothingUnresolved(epoch, detail);
      ids := [];
    } else {
      var id := Least(pending.Keys);
      var rest := pending - {id};
      assert rest.Keys == pending.Keys - {id};
      var others := AmbiguousExact(rest, epoch, detail);
      ids := if pending[id].hasPayload then [id] + others else others;
      UnresolvedMore(pending, id, others);
      ReportsMore(Ambiguous(rest, epoch, detail), pending, id, others, epoch, detail);
      assert !pending[id].hasPayload ==> Ambiguous(pending, epoch, detail) == Ambiguous(rest, epoch, detail);
    }
  }

  lemma {:induction false} NothingUnresolved(epoch: nat, detail: seq<u8>)
    ensures Unresolved(map[], []) && Reports([], map[], [], epoch, detail)
  {
  }

  /** A record that is not covered yet. */
  predicate Fresh(s: Replaying, r: J.Record, kind: u16) {
    r.header.kind == kind && r.header.sequence > s.document.lastSequence
  }

  /** An abort drops the transaction and counts as replayed, and applies nothing. */
  lemma {:induction false} AbortExact(s: Replaying, r: J.Record)
    requires Fresh(s, r, J.ABORT)
    ensures var t := Take(s, r);
            && t.document == s.document.(lastSequence := r.header.sequence)
            && forall id: u64 :: id in t.pending <==> id in s.pending && id != r.header.transaction
    ensures forall id: u64 | id in Take(s, r).pending :: Take(s, r).pending[id] == s.pending[id]
  {
  }

  /** A commit applies the payload last seen under its transaction, and only one that was
      seen and means something; so after an abort it applies nothing. */
  lemma {:induction false} CommitRecordExact(s: Replaying, r: J.Record)
    requires Fresh(s, r, J.COMMIT)
    ensures var t, id := Take(s, r), r.header.transaction;
            if id in s.pending && s.pending[id].hasPayload then
              && t.pending == s.pending - {id}
              && match Meaning(s.pending[id].payload)
                 case None => t.document == s.document
                 case Some((kind, row)) => t.document == Apply(s.document, kind, row).(lastSequence := r.header.sequence)
            else t == s
  {
    hide Meaning, Apply;
  }

  // ---- Opening --------------------------------------------------------------

  datatype Disk = Disk(snapshot: Option<seq<u8>>, journal: seq<u8>)

  datatype Opened = Opened(document: Document, next: u64, journal: seq<u8>) | Refused(why: Refusal)
  datatype Refusal = BadSnapshot(error: S.SnapError) | OversizedJournal | CorruptJournal

  function Wrapped(n: nat): u64 {
    n % (MAX_U64 + 1)
  }

  lemma {:induction false} NotWrapped(n: nat)
    requires n <= MAX_U64
    ensures Wrapped(n) == n
  {
  }

  /** Sequencing starts at one and only moves forward. */
  function Resumed(last: u64): u64 {
    var next := Wrapped(last + 1);
    if next > 1 then next else 1
  }

  function Finished(s: Replaying, detail: seq<u8>): Document {
    s.document.(attempts := s.document.attempts + Ambiguous(s.pending, s.document.epoch, detail))
  }

  function Open(disk: Disk, o: Options, detail: seq<u8>): Opened {
    match Start(disk.snapshot, o)
    case Failed(e) => Refused(BadSnapshot(e))
    case Started(d, _) =>
      if |disk.journal| > J.MAX_JOURNAL_BYTES then Refused(OversizedJournal)
      else
        var replay := J.Replay(disk.journal, J.MAX_RECORD_BYTES);
        if replay.status == J.Corrupt then Refused(CorruptJournal)
        else
          var s := Digest(Replaying(d, map[]), replay.records);
          J.ReplayExact(disk.journal, J.MAX_RECORD_BYTES);
          Opened(Finished(s, detail), Resumed(s.document.lastSequence),
                 if replay.status == J.TruncatedTail && !o.readOnly then disk.journal[..replay.validBytes]
                 else disk.journal)
  }

  // ---- What a commit writes -------------------------------------------------

  datatype Stamp = Stamp(epoch: u64, generation: u64, attempt: u64, tick: u64)

  function IntentBody(kind: u16, stamp: Stamp): (b: seq<u8>)
    ensures |b| == 18
  {
    Le(kind, 2) + Le(stamp.attempt, 8) + Le(stamp.tick, 8)
  }

  function CommitBody(kind: u16, framed: seq<u8>): (b: seq<u8>)
    ensures |b| == 6
  {
    Le(kind, 2) + Le(C.Crc(framed), 4)
  }

  /** The part of a run of the journal one append or one transaction leaves behind:
      the first `count` of the three records of a transaction, or a rebase marker. */
  datatype Chunk =
    | Txn(kind: u16, framed: seq<u8>, stamp: Stamp, at: u64, count: nat)
    | Mark(at: u64, epoch: u64, generation: u64)

  predicate ChunkOk(c: Chunk) {
    c.Txn? ==>
      && 1 <= c.count <= 3 && c.kind != 0 && c.kind != KIND_COUNT && c.at + 2 <= MAX_U64
      && |c.framed| <= J.MAX_RECORD_BYTES && Meaning(c.framed).Some?
  }

  predicate ChunksOk(cs: seq<Chunk>) {
    forall c | c in cs :: ChunkOk(c)
  }

  /** Intent, payload and commit of the transaction numbered by its first sequence. Sequence
      numbers are 64-bit and wrap. */
  function Transaction(kind: u16, framed: seq<u8>, stamp: Stamp, at: u64): (rs: seq<J.Record>)
    requires |framed| <= J.MAX_RECORD_BYTES
    ensures |rs| == 3
  {
    [J.Make(J.INTENT, at, stamp.epoch, stamp.generation, at, IntentBody(kind, stamp)),
     J.Make(J.PAYLOAD, J.Next(at), stamp.epoch, stamp.generation, at, framed),
     J.Make(J.COMMIT, J.Next(J.Next(at)), stamp.epoch, stamp.generation, at, CommitBody(kind, framed))]
  }

  function RecordsIn(c: Chunk): (rs: seq<J.Record>)
    requires ChunkOk(c)
  {
    match c
    case Txn(kind, framed, stamp, at, count) => Transaction(kind, framed, stamp, at)[..count]
    case Mark(at, epoch, generation) => [J.Make(J.REBASE, at, epoch, generation, 0, [])]
  }

  function Records(cs: seq<Chunk>): (rs: seq<J.Record>)
    requires ChunksOk(cs)
  {
    if cs == [] then [] else RecordsIn(cs[0]) + Records(cs[1..])
  }

  // ---- The fold the recovery must equal -------------------------------------

  /** What the recovery promises to bring back: everything but the attempts, the
      authority generation, the mutation count and the sequence. */
  function Core(d: Document): Document {
    d.(attempts := [], authority := 0, mutations := 0, lastSequence := 0)
  }

  function FoldPayloads(d: Document, ps: seq<seq<u8>>): Document
    decreases |ps|
  {
    if ps == [] then d
    else
      match ApplyPayload(d, ps[0])
      case None => d
      case Some(e) => FoldPayloads(e, ps[1..])
  }

  lemma {:induction false} CoreApply(d: Document, e: Document, kind: u16, row: Row)
    requires Core(d) == Core(e)
    ensures Core(Apply(d, kind, row)) == Core(Apply(e, kind, row))
  {
  }

  predicate AllMean(ps: seq<seq<u8>>) {
    forall p | p in ps :: Meaning(p).Some?
  }

  lemma {:induction false} CoreFold(d: Document, e: Document, ps: seq<seq<u8>>)
    requires Core(d) == Core(e) && AllMean(ps)
    ensures Core(FoldPayloads(d, ps)) == Core(FoldPayloads(e, ps))
    decreases |ps|
  {
    hide Meaning, Apply, Core;
    if ps != [] {
      assert ps[0] in ps && forall p | p in ps[1..] :: p in ps;
      var (kind, row) := Meaning(ps[0]).value;
      CoreApply(d, e, kind, row);
      CoreFold(Apply(d, kind, row), Apply(e, kind, row), ps[1..]);
    }
  }

  lemma {:induction false} FoldPayloadsConcat(d: Document, x: seq<seq<u8>>, y: seq<seq<u8>>)
    requires AllMean(x)
    ensures FoldPayloads(d, x + y) == FoldPayloads(FoldPayloads(d, x), y)
    decreases |x|
  {
    hide Meaning, Apply;
    if x == [] {
      assert x + y == y;
    } else {
      assert x[0] in x && forall p | p in x[1..] :: p in x;
      assert (x + y)[1..] == x[1..] + y;
      var (kind, row) := Meaning(x[0]).value;
      FoldPayloadsConcat(Apply(d, kind, row), x[1..], y);
    }
  }

  // ---- Replaying chunks -----------------------------------------------------

  /** The sequence after which nothing more is skipped. */
  function LastOf(cs: seq<Chunk>, last: u64): (r: u64)
    requires ChunksOk(cs)
    ensures r >= last
  {
    if cs == [] then last
    else
      assert ChunkOk(cs[0]) by { assert cs[0] in cs; }
      LastOf(cs[1..], match cs[0]
                      case Txn(_, _, _, at, count) => if count == 3 && at > last then at + 2 else last
                      case Mark(at, _, _) => if at > last then at else last)
  }

  /** Starting after `last`, the committed transactions still to be applied are those
      carrying `ps`, in order; every other committed one is wholly skipped. */
  predicate Carries(cs: seq<Chunk>, last: u64, ps: seq<seq<u8>>)
    requires ChunksOk(cs)
    decreases cs
  {
    if cs == [] then ps == []
    else
      assert ChunkOk(cs[0]) by { assert cs[0] in cs; }
      match cs[0]
      case Txn(_, framed, _, at, count) =>
        if count < 3 || at + 2 <= last then Carries(cs[1..], last, ps)
        else at > last && ps != [] && ps[0] == framed && Carries(cs[1..], at + 2, ps[1..])
      case Mark(at, _, _) => Carries(cs[1..], if at > last then at else last, ps)
  }

  /** What replaying leaves: the payloads applied in order, and the last sequence. */
  ghost predicate Reaches(s: Replaying, d: Document, ps: seq<seq<u8>>, last: u64) {
    Core(s.document) == Core(FoldPayloads(d, ps)) && s.document.lastSequence == last && WellFormed(s.document)
  }

  lemma {:induction false} HeadersOf(c: Chunk)
    requires ChunkOk(c)
    ensures c.Txn? ==>
              var t := Transaction(c.kind, c.framed, c.stamp, c.at);
              && (forall i | 0 <= i < 3 :: t[i].header.transaction == c.at && t[i].header.sequence == c.at + i)
              && t[0].header.kind == J.INTENT && t[1].header.kind == J.PAYLOAD && t[2].header.kind == J.COMMIT
              && t[1].payload == c.framed && IntentKind(t[0].payload) == Some(c.kind)
    ensures c.Mark? ==>
              var r := J.Make(J.REBASE, c.at, c.epoch, c.generation, 0, []);
              r.header.kind == J.REBASE && r.header.sequence == c.at
  {
    hide J.Make, IntentBody, CommitBody, IntentKind;
    match c {
      case Txn(kind, framed, stamp, at, _) =>
        MadeHeader(J.INTENT, at, stamp.epoch, stamp.generation, at, IntentBody(kind, stamp));
        MadeHeader(J.PAYLOAD, at + 1, stamp.epoch, stamp.generation, at, framed);
        MadeHeader(J.COMMIT, at + 2, stamp.epoch, stamp.generation, at, CommitBody(kind, framed));
        IntentSays(kind, stamp);
      case Mark(at, epoch, generation) =>
        MadeHeader(J.REBASE, at, epoch, generation, 0, []);
    }
  }

  lemma {:induction false} MadeHeader(kind: u16, sequence: u64, epoch: u64, generation: u64, transaction: u64,
                                      payload: seq<u8>)
    requires |payload| <= 0xFFFF_FFFF
    ensures var r := J.Make(kind, sequence, epoch, generation, transaction, payload);
            && r.header.kind == kind && r.header.sequence == sequence && r.header.transaction == transaction
            && r.payload == payload
  {
    hide C.Crc, J.ComputedCrc;
  }

  lemma {:induction false} IntentSays(kind: u16, stamp: Stamp)
    requires kind != 0 && kind != KIND_COUNT
    ensures IntentKind(IntentBody(kind, stamp)) == Some(kind)
  {
    var b := IntentBody(kind, stamp);
    UnLe16(kind);
    assert b[..2] == Le(kind, 2);
  }

  lemma {:induction false} WellFormedAt(d: Document, sequence: u64)
    requires WellFormed(d)
    ensures WellFormed(At(d, sequence)) && Core(At(d, sequence)) == Core(d) && At(d, sequence).lastSequence == sequence
  {
    hide Good, Arranged;
    EpochOkFrame(d, At(d, sequence));
    assert forall k: u16 :: List(At(d, sequence), k) == List(d, k) && Slot(At(d, sequence), k) == Slot(d, k);
  }

  lemma {:induction false} DigestConcat(s: Replaying, x: seq<J.Record>, y: seq<J.Record>)
    ensures Digest(s, x + y) == Digest(Digest(s, x), y)
    decreases |x|
  {
    hide Take;
    if x == [] {
      assert x + y == y;
    } else {
      assert (x + y)[1..] == x[1..] + y;
      DigestConcat(Take(s, x[0]), x[1..], y);
    }
  }

  lemma {:induction false} DigestThree(s: Replaying, a: J.Record, b: J.Record, c: J.Record)
    ensures Digest(s, [a]) == Take(s, a)
    ensures Digest(s, [a, b]) == Take(Take(s, a), b)
    ensures Digest(s, [a, b, c]) == Take(Take(Take(s, a), b), c)
  {
    hide Take;
    assert [a][1..] == [] && [a, b][1..] == [b] && [a, b, c][1..] == [b, c];
    assert Digest(Take(s, a), []) == Take(s, a);
    assert [b][1..] == [] && [b, c][1..] == [c] && [c][1..] == [];
    assert Digest(Take(Take(s, a), b), []) == Take(Take(s, a), b);
    assert Digest(s, [a, b]) == Digest(Take(s, a), [b]) == Take(Take(s, a), b);
    assert Digest(s, [a, b, c]) == Digest(Take(s, a), [b, c]);
    assert Digest(Take(s, a), [b, c]) == Digest(Take(Take(s, a), b), [c]);
    assert Digest(Take(Take(s, a), b), [c]) == Digest(Take(Take(Take(s, a), b), c), []);
  }

  /** An unfinished transaction changes only what is pending, whatever is skipped of it. */
  lemma {:induction false} UnfinishedChangesNothing(s: Replaying, c: Chunk)
    requires ChunkOk(c) && c.Txn? && c.count < 3
    ensures Digest(s, RecordsIn(c)).document == s.document
  {
    hide Digest, J.Make, IntentKind;
    HeadersOf(c);
    var t := Transaction(c.kind, c.framed, c.stamp, c.at);
    DigestThree(s, t[0], t[1], t[2]);
    if c.count == 1 {
      assert t[..1] == [t[0]];
    } else {
      assert t[..2] == [t[0], t[1]];
    }
  }

  /** A committed transaction applies its own payload, whatever an earlier transaction
      with the same number left pending. */
  lemma {:induction false} CommittedApplies(s: Replaying, c: Chunk)
    requires ChunkOk(c) && c.Txn? && c.count == 3 && c.at > s.document.lastSequence
    ensures ApplyPayload(s.document, c.framed).Some?
    ensures Digest(s, RecordsIn(c)).document == At(ApplyPayload(s.document, c.framed).value, c.at + 2)
  {
    hide Digest, J.Make, IntentKind, Meaning, Apply;
    HeadersOf(c);
    var t := Transaction(c.kind, c.framed, c.stamp, c.at);
    DigestThree(s, t[0], t[1], t[2]);
    assert t[..3] == [t[0], t[1], t[2]];
  }

  lemma {:induction false} SkippedIsSkipped(s: Replaying, c: Chunk)
    requires ChunkOk(c) && c.Txn? && c.count == 3 && c.at + 2 <= s.document.lastSequence
    ensures Digest(s, RecordsIn(c)) == s
  {
    hide Digest, J.Make, IntentKind, Meaning, Apply;
    HeadersOf(c);
    var t := Transaction(c.kind, c.framed, c.stamp, c.at);
    DigestThree(s, t[0], t[1], t[2]);
    assert t[..3] == [t[0], t[1], t[2]];
  }

  lemma {:induction false} MarkMoves(s: Replaying, c: Chunk)
    requires ChunkOk(c) && c.Mark?
    ensures Digest(s, RecordsIn(c)).document
         == if c.at > s.document.lastSequence then At(s.document, c.at) else s.document
  {
    hide Digest, J.Make;
    HeadersOf(c);
    DigestThree(s, RecordsIn(c)[0], RecordsIn(c)[0], RecordsIn(c)[0]);
    assert RecordsIn(c) == [RecordsIn(c)[0]];
  }

  lemma {:induction false} ChunksTail(cs: seq<Chunk>)
    requires ChunksOk(cs) && cs != []
    ensures ChunkOk(cs[0]) && ChunksOk(cs[1..])
  {
    hide ChunkOk;
    assert cs[0] in cs && forall c | c in cs[1..] :: c in cs;
  }

  lemma {:induction false} MeansTail(ps: seq<seq<u8>>)
    requires AllMean(ps) && ps != []
    ensures Meaning(ps[0]).Some? && AllMean(ps[1..])
  {
    hide Meaning;
    assert ps[0] in ps && forall p | p in ps[1..] :: p in ps;
  }

  /** Replaying the chunks applies exactly the payloads they carry, in order. */
  lemma {:induction false} DigestChunks(s: Replaying, cs: seq<Chunk>, ps: seq<seq<u8>>)
    requires ChunksOk(cs) && AllMean(ps) && WellFormed(s.document) && Carries(cs, s.document.lastSequence, ps)
    ensures Reaches(Digest(s, Records(cs)), s.document, ps, LastOf(cs, s.document.lastSequence))
    decreases cs
  {
    hide ChunkOk, Meaning, WellFormed, Core, RecordsIn, Apply;
    if cs != [] {
      ChunksTail(cs);
      var c, rest := cs[0], cs[1..];
      DigestConcat(s, RecordsIn(c), Records(rest));
      var t := Digest(s, RecordsIn(c));
      var last := s.document.lastSequence;
      match c {
        case Txn(_, framed, _, at, count) =>
          CountOk(c);
          if count < 3 {
            UnfinishedChangesNothing(s, c);
            DigestChunks(t, rest, ps);
          } else if at + 2 <= last {
            SkippedIsSkipped(s, c);
            DigestChunks(t, rest, ps);
          } else {
            CommittedApplies(s, c);
            MeansTail(ps);
            FramedGood(c);
            var (kind, row) := Meaning(framed).value;
            ApplyWellFormed(s.document, kind, row);
            WellFormedAt(Apply(s.document, kind, row), at + 2);
            DigestChunks(t, rest, ps[1..]);
            CoreFold(t.document, Apply(s.document, kind, row), ps[1..]);
          }
        case Mark(at, _, _) =>
          MarkMoves(s, c);
          if at > last {
            WellFormedAt(s.document, at);
            CoreFold(t.document, s.document, ps);
          }
          DigestChunks(t, rest, ps);
      }
    }
  }

  lemma {:induction false} CountOk(c: Chunk)
    requires ChunkOk(c) && c.Txn?
    ensures 1 <= c.count <= 3 && c.at + 2 <= MAX_U64
  {
  }

  lemma {:induction false} FramedGood(c: Chunk)
    requires ChunkOk(c) && c.Txn?
    ensures Meaning(c.framed).Some? && Good(Meaning(c.framed).value.0, Meaning(c.framed).value.1)
  {
    PayloadGood(c.framed);
  }
}
