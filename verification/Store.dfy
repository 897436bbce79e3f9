/** The durable store object: opening, committing and checkpointing in place
    (src/durability/store.cpp). Its methods are the steps of the store's runs. */
module Store {
  import opened Words
  import opened Model
  import opened Layout
  import opened StoreCodec
  import opened Document
  import opened Checkpoint
  import opened Recovery
  import opened StoreRuns
  import J = Journal
  import S = Snapshot

  datatype CheckpointError = Closed | SnapshotTooLarge | Unreadable | Unrecoverable | Different | NotRebased(error: J.Error)

  /** Domains are kept in key order, so they can be searched. */
  predicate Tidy(d: Document) {
    KeysAscend(d.domains)
  }

  /** Whether a record with this identity is already there. */
  method HasIdentity(rows: seq<Row>, key: nat) returns (found: bool)
    ensures found == HasKey(rows, key)
  {
    for i := 0 to |rows|
      invariant forall k | 0 <= k < i :: Key(rows[k]) != key
    {
      if Key(rows[i]) == key {
        return true;
      }
    }
    found := false;
  }

  class DurableStore {
    const options: Options
    const log: J.Log
    var snapshot: Option<seq<u8>>
    var document: Document
    var isOpen: bool

    ghost predicate Valid()
      reads this, log
    {
      log.Valid() && log.options == JournalOptions(options) && Tidy(document)
    }

    ghost function OnDisk(): Disk
      reads this, log
    {
      Disk(snapshot, log.file)
    }

    constructor (disk: Disk, opts: Options)
      ensures Valid() && fresh(log) && OnDisk() == disk && options == opts
      ensures !isOpen && document == EMPTY && log.nextSequence == 1
    {
      options := opts;
      log := new J.Log(disk.journal, JournalOptions(opts));
      snapshot := disk.snapshot;
      document := EMPTY;
      isOpen := false;
    }

    /** Insert or replace a domain in its place. */
    method PutDomain(row: Row)
      requires Valid()
      modifies this`document
      ensures Valid() && document == Apply(old(document), DOMAIN_STATE, row)
    {
      var k := LowerBound(document.domains, Key(row));
      UpsertAscends(document.domains, row);
      if k < |document.domains| && Key(document.domains[k]) == Key(row) {
        document := document.(domains := document.domains[k := row]);
      } else {
        document := document.(domains := document.domains[..k] + [row] + document.domains[k..]);
      }
    }

    /** Apply a decoded row in place. */
    method Put(kind: u16, row: Row)
      requires Valid() && KnownKind(kind)
      modifies this`document
      ensures Valid() && document == Apply(old(document), kind, row)
    {
      hide KeysAscend;
      if kind == POLICY_SET {
        document := document.(policy := Some(row));
      } else if kind == TOPOLOGY_SET {
        document := document.(topology := Some(row));
      } else if kind == CAPACITY_SET {
        document := document.(capacity := Some(row));
      } else if kind == DOMAIN_STATE {
        PutDomain(row);
      } else if kind == INTERVENTION {
        var duplicate := HasIdentity(document.interventions, Key(row));
        if !duplicate {
          document := document.(interventions := document.interventions + [row]);
        }
      } else if kind == FENCE {
        var duplicate := HasIdentity(document.fences, Key(row));
        if !duplicate {
          document := document.(fences := document.fences + [row]);
        }
      } else if kind == EPOCH_ADVANCE {
        document := document.(epoch := N(row, 0), boot := N(row, 1), bootCounter := N(row, 2));
      } else if kind == REVALIDATION {
        document := document.(revalidations := document.revalidations + [row]);
      } else if kind == HISTORY_APPEND {
        document := document.(history := document.history + [row]);
      } else if kind == ATTEMPT_RECORD {
        document := document.(attempts := document.attempts + [row]);
      } else {
        var duplicate := HasIdentity(document.provenance, Key(row));
        if !duplicate {
          document := document.(provenance := document.provenance + [row]);
        }
      }
    }

    /** `apply` on a framed payload: the document changes only when the payload decodes. */
    method ApplyFramed(payload: seq<u8>) returns (ok: bool)
      requires Valid()
      modifies this`document
      ensures Valid() && ok == ApplyPayload(old(document), payload).Some?
      ensures document == if ok then ApplyPayload(old(document), payload).value else old(document)
    {
      hide DecodeBody, Apply, Tidy;
      var unframed := Unframe(payload);
      if unframed.None? {
        return false;
      }
      var decoded := DecodeBody(unframed.value.kind, unframed.value.body);
      if decoded.Rejected? {
        return false;
      }
      DecodedKnown(unframed.value.kind, unframed.value.body);
      Put(unframed.value.kind, decoded.row);
      ok := true;
    }

    /** Apply a snapshot's records in order, stopping at the first that says nothing. */
    method LoadRecords(records: seq<J.Record>)
      requires Valid()
      modifies this`document
      ensures Valid() && document == Load(old(document), records).document
    {
      hide ApplyPayload, Tidy;
      var i := 0;
      while i < |records|
        invariant 0 <= i <= |records| && Valid()
        invariant Load(old(document), records) == Load(document, records[i..])
      {
        assert records[i..][0] == records[i] && records[i..][1..] == records[i + 1..];
        var ok := ApplyFramed(records[i].payload);
        if !ok {
          return;
        }
        i := i + 1;
      }
    }

    /** Replay journal records over the document, keeping the pending transactions. */
    method ReplayRecords(records: seq<J.Record>) returns (pending: map<u64, Pending>)
      requires Valid()
      modifies this`document
      ensures Valid() && Replaying(document, pending) == Digest(Replaying(old(document), map[]), records)
    {
      hide Take, Tidy;
      pending := map[];
      var i := 0;
      while i < |records|
        invariant 0 <= i <= |records| && Valid()
        invariant Digest(Replaying(old(document), map[]), records) == Digest(Replaying(document, pending), records[i..])
      {
        assert records[i..][0] == records[i] && records[i..][1..] == records[i + 1..];
        pending := TakeRecord(records[i], pending);
        i := i + 1;
      }
    }

    /** One journal record. */
    method TakeRecord(record: J.Record, pending: map<u64, Pending>) returns (after: map<u64, Pending>)
      requires Valid()
      modifies this`document
      ensures Valid() && Replaying(document, after) == Take(Replaying(old(document), pending), record)
    {
      hide ApplyPayload, IntentKind;
      after := pending;
      var sequence, id := record.header.sequence, record.header.transaction;
      if sequence <= document.lastSequence {
        return;
      }
      var kind := record.header.kind;
      if kind == J.INTENT {
        var announced := IntentKind(record.payload);
        if announced.Some? {
          after := after[id := PendingAt(after, id).(kind := announced.value, sequence := sequence)];
        }
      } else if kind == J.PAYLOAD {
        var slot := PendingAt(after, id).(payload := record.payload, hasPayload := true);
        if slot.sequence == 0 {
          slot := slot.(sequence := sequence);
        }
        after := after[id := slot];
      } else if kind == J.COMMIT {
        if id !in after || !after[id].hasPayload {
          return;
        }
        var applied := ApplyFramed(after[id].payload);
        after := after - {id};
        if applied {
          document := document.(lastSequence := sequence);
        }
      } else if kind == J.ABORT {
        after := after - {id};
        document := document.(lastSequence := sequence);
      } else if kind == J.REBASE {
        document := document.(lastSequence := sequence);
      }
    }

    /** Open: start from the snapshot, replay the journal, report what was left
        unfinished, resume sequencing and cut a torn tail. */
    method OpenStore(detail: seq<u8>) returns (refusal: Option<Refusal>)
      requires Valid() && !isOpen && document == EMPTY && log.nextSequence == 1
      modifies this`document, this`isOpen, log
      ensures Valid()
      ensures match Open(old(OnDisk()), options, detail)
              case Refused(why) => refusal == Some(why) && !isOpen && OnDisk() == old(OnDisk())
              case Opened(d, next, journal) =>
                refusal.None? && isOpen && document == d && log.nextSequence == next && log.file == journal
    {
      hide S.Read, Load, Digest, J.Replay, Ambiguous, Tidy;
      if snapshot.Some? {
        var contents := S.ReadSnapshot(snapshot.value, SnapshotLimit(options), S.MAX_SNAPSHOT_BYTES);
        if contents.Ok? {
          var h := contents.value.header;
          document := FromHeader(h.epoch, h.boot, h.bootCounter, h.lastSequence);
          EmptyTidy(document);
          LoadRecords(contents.value.records);
        } else if !options.tolerateCorruptSnapshot {
          return Some(BadSnapshot(contents.error));
        }
      }
      var read := log.ReplayFile();
      if read.None? {
        return Some(OversizedJournal);
      }
      var replay := read.value;
      ReplayValid(log.file);
      if replay.status == J.Corrupt {
        return Some(CorruptJournal);
      }
      var pending := ReplayRecords(replay.records);
      AttemptsTidy(document, Ambiguous(pending, document.epoch, detail));
      document := document.(attempts := document.attempts + Ambiguous(pending, document.epoch, detail));
      log.ResumeSequence(Wrapped(document.lastSequence + 1));
      if replay.status == J.TruncatedTail && !options.readOnly {
        var cut := log.TruncateTo(replay.validBytes);
      }
      isOpen := true;
      refusal := None;
    }

    /** Commit: check, write intent, payload and commit record, then apply and prune.
        The result is the planned one: all three records and the new document, or the
        records the journal took and the old document. */
    method CommitMutation(kind: u16, body: seq<u8>, stamp: Stamp) returns (error: Option<CommitError>)
      requires Valid()
      modifies this`document, log
      ensures Valid()
      ensures !isOpen ==> error == Some(NotOpen) && OnDisk() == old(OnDisk()) && document == old(document)
      ensures isOpen ==>
                var w := Plan(old(document), old(log.nextSequence), |old(log.file)|, options, kind, body, stamp);
                match w
                case Nothing =>
                  && error == CommitCheck(old(document), options, kind, body) && error.Some?
                  && log.file == old(log.file) && document == old(document) && log.nextSequence == old(log.nextSequence)
                case Writing(framed, records, count) =>
                  && log.file == old(log.file) + J.Flat(records[..count])
                  && log.nextSequence == Wrapped(old(log.nextSequence) + count)
                  && (error.None? <==> count == 3) && (error.Some? ==> error.value.JournalRefused?)
                  && document == if count == 3
                                 then Committed(old(document), options, framed, stamp,
                                                Wrapped(old(log.nextSequence) + 2))
                                 else old(document)
    {
      hide DecodeBody, Meaning, Apply, Tidy, J.Flat, Prune, Frame, Transaction;
      if !isOpen {
        return Some(NotOpen);
      }
      var refused := CommitCheck(document, options, kind, body);
      if refused.Some? {
        return refused;
      }
      CheckedMeans(document, options, kind, body);
      var framed := Frame(kind, body);
      var last := Wrapped(log.nextSequence + 2);
      var r := AppendTransaction(kind, framed, stamp);
      if r.Denied? {
        return Some(JournalRefused(r.error));
      }
      var applied := ApplyFramed(framed);
      CommittedTidy(document, options, stamp, last);
      document := document.(lastSequence := last, authority := stamp.generation, mutations := Bumped(document.mutations));
      document := Prune(document, options);
      error := None;
    }

    /** Intent, payload and commit record under one transaction, until the journal refuses one. */
    method AppendTransaction(kind: u16, framed: seq<u8>, stamp: Stamp) returns (r: J.Outcome)
      requires Valid() && |framed| <= J.MAX_RECORD_BYTES
      modifies log
      ensures Valid()
      ensures var records := Transaction(kind, framed, stamp, old(log.nextSequence));
              var n := Written(options, |old(log.file)|, records);
              && log.file == old(log.file) + J.Flat(records[..n])
              && log.nextSequence == Wrapped(old(log.nextSequence) + n)
              && (r.Done? <==> n == 3)
    {
      hide J.Make, J.Flat, J.Bytes, J.AppendCheck, IntentBody, CommitBody, Tidy, Written;
      var transaction := log.nextSequence;
      ghost var records := Transaction(kind, framed, stamp, transaction);
      ghost var before := log.file;
      MadePayloads(kind, framed, stamp, transaction);
      WrittenSteps(options, |log.file|, records);
      r := log.Append(J.INTENT, stamp.epoch, stamp.generation, transaction, IntentBody(kind, stamp));
      if r.Denied? {
        assert before + [] == before;
        return;
      }
      r := log.Append(J.PAYLOAD, stamp.epoch, stamp.generation, transaction, framed);
      if r.Denied? {
        return;
      }
      Joined(before, J.Bytes(records[0]), J.Bytes(records[1]), J.Bytes(records[2]));
      r := log.Append(J.COMMIT, stamp.epoch, stamp.generation, transaction, CommitBody(kind, framed));
    }

    /** Checkpoint: write the document as a snapshot, read it back, recover it into a
        scratch store and compare, and only then start the journal again. Of the ways
        to fail only the size bound and a read-only journal are ever taken. */
    method CheckpointNow() returns (error: Option<CheckpointError>)
      requires Valid() && WellFormed(document)
      modifies this`snapshot, log
      ensures Valid() && document == old(document)
      ensures !isOpen ==> error == Some(Closed) && OnDisk() == old(OnDisk())
      ensures isOpen && !Compact(document) ==> error == Some(SnapshotTooLarge) && OnDisk() == old(OnDisk())
      ensures isOpen && Compact(document) ==>
                && snapshot == Some(SnapshotBytes(document))
                && if options.readOnly
                   then error == Some(NotRebased(J.Unauthorized)) && log.file == old(log.file)
                   else && error.None? && log.file == J.Bytes(MarkRecord(document, old(log.nextSequence)))
                        && log.nextSequence == J.Next(old(log.nextSequence))
    {
      hide WellFormed, CheckpointRecords, Entries, Compact, SnapshotBytes, Tidy, J.Bytes, J.Make, J.AppendCheck;
      hide S.Read, S.Container, S.FramedAll, S.ContainerSize, S.PayloadBytes, Load, ApplyPayload;
      if !isOpen {
        return Some(Closed);
      }
      var records := CheckpointRecords(document);
      EntriesGood(document);
      var limit := |records| + 1;
      var written := S.WriteSnapshot(HeaderFor(document), records, limit, S.MAX_SNAPSHOT_BYTES);
      WrittenIsSnapshot(document, written);
      if written.Err? {
        return Some(SnapshotTooLarge);
      }
      snapshot := Some(written.value);
      var verified := S.ReadSnapshot(written.value, limit, S.MAX_SNAPSHOT_BYTES);
      VerifiedReadsBack(document, limit);
      if verified.Err? {
        return Some(CheckpointError.Unreadable);
      }
      if |verified.value.records| != |records| {
        return Some(Different);
      }
      var scratch := new DurableStore(Disk(None, []), options);
      var recovered := scratch.Recovers(verified.value.records);
      ScratchSame(document);
      if !recovered {
        return Some(Unrecoverable);
      }
      if scratch.document.policy.Some? != document.policy.Some?
         || |scratch.document.domains| != |document.domains| || |scratch.document.fences| != |document.fences| {
        return Some(Different);
      }
      var r := log.Rebase(Wrapped(document.epoch), document.authority);
      RebaseAdmitted(options);
      if r.Denied? {
        return Some(NotRebased(r.error));
      }
      error := None;
    }

    /** Apply records to a scratch document, reporting whether all of them applied. */
    method Recovers(records: seq<J.Record>) returns (ok: bool)
      requires Valid()
      modifies this`document
      ensures Valid() && Loaded(document, ok) == Load(old(document), records)
    {
      hide ApplyPayload, Tidy;
      var i := 0;
      while i < |records|
        invariant 0 <= i <= |records| && Valid()
        invariant Load(old(document), records) == Load(document, records[i..])
      {
        assert records[i..][0] == records[i] && records[i..][1..] == records[i + 1..];
        ok := ApplyFramed(records[i].payload);
        if !ok {
          return;
        }
        i := i + 1;
      }
      ok := true;
    }
  }

  lemma {:induction false} WrittenIsSnapshot(d: Document, written: S.Result<seq<u8>>)
    requires WellFormed(d)
    requires var rs := CheckpointRecords(d);
             written.Ok? <==> |rs| <= |rs| + 1 && S.PayloadsBounded(rs) && S.ContainerSize(rs) <= S.MAX_SNAPSHOT_BYTES
    requires written.Ok? ==>
               var fs := S.FramedAll(CheckpointRecords(d));
               && d.epoch <= MAX_U64 && d.boot <= MAX_U64 && d.bootCounter <= MAX_U64
               && |fs| <= MAX_U64 && S.PayloadBytes(fs) <= MAX_U64 && written.value == S.Container(HeaderFor(d), fs)
    ensures written.Ok? <==> Compact(d)
    ensures written.Ok? ==> written.value == SnapshotBytes(d)
  {
    hide WellFormed, CheckpointRecords, S.Container, S.FramedAll, S.PayloadBytes, S.ContainerSize;
  }

  lemma {:induction false} VerifiedReadsBack(d: Document, limit: nat)
    requires WellFormed(d) && Compact(d) && limit == |CheckpointRecords(d)| + 1
    ensures var r := S.Read(SnapshotBytes(d), limit, S.MAX_SNAPSHOT_BYTES);
            r.Ok? && r.value.records == S.FramedAll(CheckpointRecords(d)) && |r.value.records| == |CheckpointRecords(d)|
  {
    hide WellFormed, CheckpointRecords, S.Container, S.Read, S.FinalHeader, J.Whole, Compact;
    EntriesGood(d);
    SizesFit(d);
    S.ReadBack(HeaderFor(d), S.FramedAll(CheckpointRecords(d)), limit, S.MAX_SNAPSHOT_BYTES);
  }

  /** The scratch document starts empty rather than from the header, and still ends up
      with the same policy flag, domains and fences. */
  lemma {:induction false} ScratchSame(d: Document)
    requires WellFormed(d)
    ensures var l := Load(EMPTY, S.FramedAll(CheckpointRecords(d)));
            && l.complete && l.document.policy == d.policy && l.document.domains == d.domains
                && l.document.fences == d.fences
  {
    hide Good, Entries, Payload, S.Framed, Fold;
    EntriesGood(d);
    var fs := S.FramedAll(CheckpointRecords(d));
    assert forall i | 0 <= i < |fs| :: fs[i] == S.Framed(CheckpointRecords(d)[i]);
    LoadEntries(EMPTY, Entries(d), fs);
    EntriesRestore(d);
    var start := FromHeader(d.epoch, d.boot, d.bootCounter, d.lastSequence);
    assert Visible(EMPTY) == Visible(start);
    FoldVisible(EMPTY, start, Entries(d));
  }

  /** What the comparison looks at, and all that applying entries to it depends on. */
  function Visible(d: Document): (Option<Row>, seq<Row>, seq<Row>) {
    (d.policy, d.domains, d.fences)
  }

  lemma {:induction false} FoldVisible(d: Document, e: Document, es: seq<Entry>)
    requires Visible(d) == Visible(e)
    ensures Visible(Fold(d, es)) == Visible(Fold(e, es))
    decreases |es|
  {
    if es != [] {
      ApplyVisible(d, e, es[0].kind, es[0].row);
      hide Apply, Visible;
      FoldVisible(Apply(d, es[0].kind, es[0].row), Apply(e, es[0].kind, es[0].row), es[1..]);
    }
  }

  lemma {:induction false} ApplyVisible(d: Document, e: Document, kind: u16, row: Row)
    requires Visible(d) == Visible(e)
    ensures Visible(Apply(d, kind, row)) == Visible(Apply(e, kind, row))
  {
  }

  lemma {:induction false} RebaseAdmitted(o: Options)
    ensures !o.readOnly ==> J.AppendCheck(JournalOptions(o), 0, []).Done?
  {
  }

  lemma {:induction false} MadePayloads(kind: u16, framed: seq<u8>, stamp: Stamp, at: u64)
    requires |framed| <= J.MAX_RECORD_BYTES
    ensures var t := Transaction(kind, framed, stamp, at);
            t[0].payload == IntentBody(kind, stamp) && t[1].payload == framed && t[2].payload == CommitBody(kind, framed)
  {
    hide J.Make, IntentBody, CommitBody;
    MadeHeader(J.INTENT, at, stamp.epoch, stamp.generation, at, IntentBody(kind, stamp));
    MadeHeader(J.PAYLOAD, J.Next(at), stamp.epoch, stamp.generation, at, framed);
    MadeHeader(J.COMMIT, J.Next(J.Next(at)), stamp.epoch, stamp.generation, at, CommitBody(kind, framed));
  }

  lemma {:induction false} Joined(w: seq<u8>, x: seq<u8>, y: seq<u8>, z: seq<u8>)
    ensures w + x + y == w + (x + y) && w + x + y + z == w + (x + y + z)
  {
  }

  lemma {:induction false} DecodedKnown(kind: u16, body: seq<u8>)
    requires DecodeBody(kind, body).Accepted?
    ensures KnownKind(kind)
  {
  }

  lemma {:induction false} EmptyTidy(d: Document)
    requires d.domains == []
    ensures Tidy(d)
  {
  }

  lemma {:induction false} AttemptsTidy(d: Document, rows: seq<Row>)
    requires Tidy(d)
    ensures Tidy(d.(attempts := d.attempts + rows))
  {
  }

  lemma {:induction false} CommittedTidy(d: Document, o: Options, stamp: Stamp, last: u64)
    requires Tidy(d)
    ensures Tidy(Prune(d.(lastSequence := last, authority := stamp.generation, mutations := Bumped(d.mutations)), o))
    ensures Tidy(d.(lastSequence := last, authority := stamp.generation, mutations := Bumped(d.mutations)))
  {
  }

  lemma {:induction false} ReplayValid(file: seq<u8>)
    ensures J.Replay(file, J.MAX_RECORD_BYTES).validBytes <= |file|
  {
    J.ReplayExact(file, J.MAX_RECORD_BYTES);
  }

  lemma {:induction false} WrittenSteps(o: Options, size: nat, rs: seq<J.Record>)
    requires |rs| == 3
    ensures var n := Written(o, size, rs); var jo := JournalOptions(o);
            var a := size + |J.Bytes(rs[0])|; var b := a + |J.Bytes(rs[1])|;
            && n == (if J.AppendCheck(jo, size, rs[0].payload).Denied? then 0
                     else if J.AppendCheck(jo, a, rs[1].payload).Denied? then 1
                     else if J.AppendCheck(jo, b, rs[2].payload).Denied? then 2 else 3)
    ensures J.Flat(rs[..0]) == [] && J.Flat(rs[..1]) == J.Bytes(rs[0])
    ensures J.Flat(rs[..2]) == J.Bytes(rs[0]) + J.Bytes(rs[1])
    ensures J.Flat(rs[..3]) == J.Bytes(rs[0]) + J.Bytes(rs[1]) + J.Bytes(rs[2])
  {
    hide J.Bytes, J.AppendCheck;
    assert rs[1..][0] == rs[1] && rs[1..][1..] == rs[2..] && rs[2..][0] == rs[2] && rs[2..][1..] == [];
    var jo := JournalOptions(o);
    var a := size + |J.Bytes(rs[0])|;
    var b := a + |J.Bytes(rs[1])|;
    assert Written(o, b, rs[2..]) == if J.AppendCheck(jo, b, rs[2].payload).Denied? then 0 else 1;
    assert Written(o, a, rs[1..]) == if J.AppendCheck(jo, a, rs[1].payload).Denied? then 0 else 1 + Written(o, b,
        rs[2..]);
    J.FlatConcat(rs[..1], [rs[1]]);
    J.FlatConcat(rs[..2], [rs[2]]);
    assert rs[..2] == rs[..1] + [rs[1]] && rs[..3] == rs[..2] + [rs[2]] && rs[..1] == [rs[0]];
    FlatOne(rs[0]);
    FlatOne(rs[1]);
    FlatOne(rs[2]);
  }

  lemma {:induction false} FlatOne(r: J.Record)
    ensures J.Flat([r]) == J.Bytes(r) && J.Flat([]) == []
  {
    assert [r][1..] == [];
    assert J.Flat([r]) == J.Bytes(r) + J.Flat([]);
  }
}
