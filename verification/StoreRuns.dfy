/** Runs of the durable store: opens, commits, checkpoints and crashes at any byte.
    What `open` rebuilds is the fold of the committed bodies
    (src/durability/store.cpp, src/durability/journal.cpp). */
module StoreRuns {
  import opened Words
  import opened Model
  import opened Layout
  import opened StoreCodec
  import opened Document
  import opened Checkpoint
  import opened Recovery
  import J = Journal

  // ---- Commit ---------------------------------------------------------------

  datatype CommitError =
    | NoKind | BodyTooLarge | DomainsFull | Undecodable(why: Why) | JournalRefused(error: J.Error) | NotOpen

  /** The checks a commit makes before it writes, in order. */
  function CommitCheck(d: Document, o: Options, kind: u16, body: seq<u8>): Option<CommitError> {
    if kind == 0 || kind == KIND_COUNT then Some(NoKind)
    else if |body| + 2 > J.MAX_RECORD_BYTES then Some(BodyTooLarge)
    else if kind == DOMAIN_STATE && |d.domains| >= o.maxDomains then Some(DomainsFull)
    else
      match DecodeBody(kind, body)
      case Rejected(why) => Some(Undecodable(why))
      case Accepted(_) => None
  }

  function JournalOptions(o: Options): J.Options {
    J.Options(J.MAX_RECORD_BYTES, J.MAX_JOURNAL_BYTES, o.readOnly)
  }

  /** How many of the records the journal takes before it refuses one. */
  function Written(o: Options, size: nat, rs: seq<J.Record>): (n: nat)
    ensures n <= |rs|
    decreases |rs|
  {
    if rs == [] || J.AppendCheck(JournalOptions(o), size, rs[0].payload).Denied? then 0
    else 1 + Written(o, size + |J.Bytes(rs[0])|, rs[1..])
  }

  function Trim(rows: seq<Row>, limit: nat): seq<Row> {
    if limit == 0 || |rows| <= limit then rows else rows[|rows| - limit..]
  }

  function Prune(d: Document, o: Options): Document {
    d.(history := Trim(d.history, o.maxHistory), interventions := Trim(d.interventions, o.maxInterventions),
       fences := Trim(d.fences, o.maxFences), attempts := Trim(d.attempts, o.maxAttempts),
       provenance := Trim(d.provenance, o.maxProvenance), revalidations := Trim(d.revalidations, o.maxAttempts))
  }

  /** `kept` is the newest end of `rows`: all of them, or as many as the limit. */
  predicate Newest(rows: seq<Row>, kept: seq<Row>, limit: nat) {
    && |kept| == (if limit == 0 || |rows| < limit then |rows| else limit) && |kept| <= |rows|
    && forall j | 0 <= j < |kept| :: kept[j] == rows[|rows| - |kept| + j]
  }

  /** A reached retention bound cuts the oldest rows of its own list, and nothing else. */
  lemma {:induction false} PruneKeepsNewest(d: Document, o: Options)
    ensures var e := Prune(d, o);
            && Newest(d.history, e.history, o.maxHistory)
            && Newest(d.interventions, e.interventions, o.maxInterventions)
            && Newest(d.fences, e.fences, o.maxFences)
            && Newest(d.attempts, e.attempts, o.maxAttempts)
            && Newest(d.provenance, e.provenance, o.maxProvenance)
            && Newest(d.revalidations, e.revalidations, o.maxAttempts)
            && e == d.(history := e.history, interventions := e.interventions, fences := e.fences,
                       attempts := e.attempts, provenance := e.provenance, revalidations := e.revalidations)
  {
    TrimKeepsNewest(d.history, o.maxHistory);
    TrimKeepsNewest(d.interventions, o.maxInterventions);
    TrimKeepsNewest(d.fences, o.maxFences);
    TrimKeepsNewest(d.attempts, o.maxAttempts);
    TrimKeepsNewest(d.provenance, o.maxProvenance);
    TrimKeepsNewest(d.revalidations, o.maxAttempts);
    hide Newest, Trim;
  }

  lemma {:induction false} TrimKeepsNewest(rows: seq<Row>, limit: nat)
    ensures Newest(rows, Trim(rows, limit), limit)
  {
  }

  function Bumped(n: u64): u64 {
    Wrapped(n + 1)
  }

  /** The live document once the commit record is on disk. */
  function Committed(d: Document, o: Options, framed: seq<u8>, stamp: Stamp, last: u64): Document
    requires Meaning(framed).Some?
  {
    var (kind, row) := Meaning(framed).value;
    var e := Apply(d, kind, row);
    Prune(e.(lastSequence := last, authority := stamp.generation, mutations := Bumped(e.mutations)), o)
  }

  /** No retention bound is reached, so pruning keeps every list but the attempts. */
  predicate Room(limit: nat, rows: seq<Row>) {
    limit == 0 || |rows| <= limit
  }

  predicate BelowBounds(d: Document, o: Options) {
    && Room(o.maxHistory, d.history) && Room(o.maxInterventions, d.interventions)
    && Room(o.maxFences, d.fences) && Room(o.maxProvenance, d.provenance)
    && Room(o.maxAttempts, d.revalidations)
  }

  lemma {:induction false} CheckedMeans(d: Document, o: Options, kind: u16, body: seq<u8>)
    requires CommitCheck(d, o, kind, body).None?
    ensures Meaning(Frame(kind, body)).Some? && |Frame(kind, body)| <= J.MAX_RECORD_BYTES
    ensures kind != 0 && kind != KIND_COUNT
  {
    hide DecodeBody;
    UnframeFrame(kind, body);
  }

  // ---- Systems and steps ----------------------------------------------------

  datatype Process = Down | Up(document: Document, next: u64)

  datatype Commit = Commit(payload: seq<u8>, acknowledged: bool)

  /** The disk, the process if one runs, and every commit whose commit record
      reached the disk whole. */
  datatype System = System(disk: Disk, process: Process, committed: seq<Commit>)

  const FRESH_SYSTEM := System(Disk(None, []), Down, [])

  /** Where a checkpoint may die: before the replacement, after it, with the journal
      emptied, or with part of the rebase marker written. */
  datatype Stage = BeforeReplace | AfterReplace | Emptied | Marking(cut: nat)

  datatype Event =
    | Boot(detail: seq<u8>)
    | Mutate(kind: u16, body: seq<u8>, stamp: Stamp)
    | MutateCrash(kind: u16, body: seq<u8>, stamp: Stamp, cut: nat)
    | Compaction
    | CompactionCrash(stage: Stage)
    | Kill

  function MarkRecord(d: Document, next: u64): J.Record {
    J.Make(J.REBASE, next, Wrapped(d.epoch), d.authority, 0, [])
  }

  /** The records of a commit that passes its checks, and how many the journal takes. */
  datatype Writing = Nothing | Writing(framed: seq<u8>, records: seq<J.Record>, count: nat)

  function Plan(d: Document, next: u64, size: nat, o: Options, kind: u16, body: seq<u8>, stamp: Stamp): (w: Writing)
    ensures w.Writing? ==>
              && Meaning(w.framed).Some? && |w.framed| <= J.MAX_RECORD_BYTES
              && w.framed == Frame(kind, body) && kind != 0 && kind != KIND_COUNT
              && w.records == Transaction(kind, w.framed, stamp, next) && w.count <= 3
  {
    if CommitCheck(d, o, kind, body).Some? then Nothing
    else
      CheckedMeans(d, o, kind, body);
      var records := Transaction(kind, Frame(kind, body), stamp, next);
      Writing(Frame(kind, body), records, Written(o, size, records))
  }

  function Mutated(s: System, d: Document, next: u64, w: Writing, o: Options, stamp: Stamp): System
    requires w.Writing? && Meaning(w.framed).Some? && w.count <= |w.records| == 3
  {
    System(s.disk.(journal := s.disk.journal + J.Flat(w.records[..w.count])),
           Up(if w.count == 3 then Committed(d, o, w.framed, stamp, Wrapped(next + 2)) else d,
              Wrapped(next + w.count)),
           if w.count == 3 then s.committed + [Commit(w.framed, true)] else s.committed)
  }

  function MutateCut(s: System, w: Writing, cut: nat): System
    requires w.Writing? && w.count <= |w.records| == 3
  {
    var bytes := J.Flat(w.records[..w.count]);
    var kept := if cut <= |bytes| then cut else |bytes|;
    System(s.disk.(journal := s.disk.journal + bytes[..kept]), Down,
           if J.WholeIn(w.records[..w.count], kept) == 3 then s.committed + [Commit(w.framed, false)] else s.committed)
  }

  function Replaced(s: System, d: Document, next: u64, stage: Stage): Disk
    requires WellFormed(d) && Compact(d)
  {
    var snapshot := Some(SnapshotBytes(d));
    match stage
    case BeforeReplace => s.disk
    case AfterReplace => s.disk.(snapshot := snapshot)
    case Emptied => Disk(snapshot, [])
    case Marking(cut) =>
      var mark := J.Bytes(MarkRecord(d, next));
      Disk(snapshot, mark[..if cut <= |mark| then cut else |mark|])
  }

  /** One step. */
  function Act(s: System, e: Event, o: Options): System {
    match (s.process, e)
    case (Down, Boot(detail)) =>
      (match Open(s.disk, o, detail)
       case Refused(_) => s
       case Opened(d, next, journal) => s.(disk := s.disk.(journal := journal), process := Up(d, next)))
    case (Up(d, next), Mutate(kind, body, stamp)) =>
      var w := Plan(d, next, |s.disk.journal|, o, kind, body, stamp);
      if w.Nothing? then s else Mutated(s, d, next, w, o, stamp)
    case (Up(d, next), MutateCrash(kind, body, stamp, cut)) =>
      var w := Plan(d, next, |s.disk.journal|, o, kind, body, stamp);
      if w.Nothing? then s.(process := Down) else MutateCut(s, w, cut)
    case (Up(d, next), Compaction) =>
      if !(WellFormed(d) && Compact(d)) then s
      else s.(disk := Disk(Some(SnapshotBytes(d)), J.Bytes(MarkRecord(d, next))), process := Up(d, Wrapped(next + 1)))
    case (Up(d, next), CompactionCrash(stage)) =>
      if !(WellFormed(d) && Compact(d)) then s.(process := Down)
      else s.(disk := Replaced(s, d, next, stage), process := Down)
    case (_, Kill) => s.(process := Down)
    case _ => s
  }

  function Run(es: seq<Event>, o: Options): System {
    if es == [] then FRESH_SYSTEM else Act(Run(es[..|es| - 1], o), es[|es| - 1], o)
  }

  function Payloads(cs: seq<Commit>): (ps: seq<seq<u8>>)
    ensures |ps| == |cs|
  {
    seq(|cs|, i requires 0 <= i < |cs| => cs[i].payload)
  }

  // ---- What a run may do ----------------------------------------------------

  /** A tear never falls inside the first record of the journal. */
  predicate OneWholeRecord(journal: seq<u8>) {
    J.Replay(journal, J.MAX_RECORD_BYTES).status == J.Empty ==> journal == []
  }

  /** The 64-bit sequence numbers do not run out in this step. */
  predicate NumbersLeft(p: Process, e: Event) {
    p.Up? ==>
      && (e.Mutate? || e.MutateCrash? ==> p.next + 3 <= MAX_U64)
      && (e.Compaction? || e.CompactionCrash? ==> p.next + 1 <= MAX_U64)
  }

  /** Ambiguous notes fit, sequence numbers do not run out, nothing tears the first record, checkpoints stay within the
      snapshot's record limit and commits below the retention bounds. */
  predicate Allowed(s: System, e: Event, o: Options) {
    var t := Act(s, e, o);
    && !o.readOnly && NumbersLeft(s.process, e)
    && OneWholeRecord(t.disk.journal)
    && (e.Boot? ==> |e.detail| <= NOTE_BOUND)
    && (s.process.Up? && (e.Compaction? || e.CompactionCrash?) ==> |Entries(s.process.document)| <= SnapshotLimit(o))
    && BelowBounds(FoldPayloads(EMPTY, Payloads(t.committed)), o)
  }

  predicate AllowedRun(es: seq<Event>, o: Options) {
    es == [] || (AllowedRun(es[..|es| - 1], o) && Allowed(Run(es[..|es| - 1], o), es[|es| - 1], o))
  }

  // ---- The invariant --------------------------------------------------------

  /** Every committed transaction among the chunks ended at or before `last`. */
  predicate Ended(cs: seq<Chunk>, last: u64) {
    forall c | c in cs :: c.Txn? && c.count == 3 ==> c.at + 2 <= last
  }

  /** Committed transactions and marks are numbered below `bound`. */
  predicate Below(cs: seq<Chunk>, bound: nat) {
    forall c | c in cs :: (c.Txn? && c.count == 3 ==> c.at + 2 < bound) && (c.Mark? ==> c.at < bound)
  }

  /** A strict prefix of some whole record. */
  ghost predicate Torn(torn: seq<u8>) {
    exists r: J.Record :: J.Whole(r, J.MAX_RECORD_BYTES) && |torn| < |J.Bytes(r)| && torn == J.Bytes(r)[..|torn|]
  }

  ghost predicate JournalIs(journal: seq<u8>, cs: seq<Chunk>, torn: seq<u8>) {
    ChunksOk(cs) && journal == J.Flat(Records(cs)) + torn && Torn(torn) && (torn != [] ==> cs != [])
  }

  /** Snapshot and journal together hold the fold of the payloads: the snapshot the
      first `m`, the journal's unskipped transactions the rest. */
  ghost predicate DiskHolds(disk: Disk, o: Options, ps: seq<seq<u8>>, cs: seq<Chunk>, torn: seq<u8>, m: nat, bound: nat) {
    && JournalIs(disk.journal, cs, torn) && Below(cs, bound)
    && m <= |ps| && AllMean(ps)
    && Start(disk.snapshot, o).Started?
    && var d0 := Start(disk.snapshot, o).document;
    && WellFormed(d0) && Core(d0) == Core(FoldPayloads(EMPTY, ps[..m]))
    && d0.lastSequence < bound && Carries(cs, d0.lastSequence, ps[m..])
  }

  ghost predicate LiveHolds(d: Document, next: u64, ps: seq<seq<u8>>, cs: seq<Chunk>) {
    WellFormed(d) && Core(d) == Core(FoldPayloads(EMPTY, ps)) && d.lastSequence < next && Ended(cs, d.lastSequence)
  }

  ghost predicate Inv(s: System, o: Options) {
    var ps := Payloads(s.committed);
    match s.process
    case Down => exists cs, torn, m :: DiskHolds(s.disk, o, ps, cs, torn, m, MAX_U64)
    case Up(d, next) => exists cs, m :: DiskHolds(s.disk, o, ps, cs, [], m, next) && LiveHolds(d, next, ps, cs)
  }

  // ---- Chunks at the end ----------------------------------------------------

  lemma {:induction false} RecordsAppend(cs: seq<Chunk>, c: Chunk)
    requires ChunksOk(cs) && ChunkOk(c)
    ensures ChunksOk(cs + [c]) && Records(cs + [c]) == Records(cs) + RecordsIn(c)
    ensures J.Flat(Records(cs + [c])) == J.Flat(Records(cs)) + J.Flat(RecordsIn(c))
    decreases |cs|
  {
    hide ChunkOk, RecordsIn, J.Flat;
    if cs == [] {
      assert cs + [c] == [c] && [c][1..] == [];
      assert Records([c]) == RecordsIn(c) + Records([]);
    } else {
      ChunksTail(cs);
      RecordsAppend(cs[1..], c);
      assert (cs + [c])[1..] == cs[1..] + [c];
    }
    J.FlatConcat(Records(cs), RecordsIn(c));
  }

  lemma {:induction false} CarriesAppend(cs: seq<Chunk>, last: u64, ps: seq<seq<u8>>, c: Chunk, more: seq<seq<u8>>,
                                         bound: nat)
    requires ChunksOk(cs + [c]) && ChunksOk(cs) && Carries(cs, last, ps) && Below(cs, bound) && last < bound
    requires if c.Txn? && c.count == 3 then c.at >= bound && more == [c.framed] else more == []
    ensures Carries(cs + [c], last, ps + more)
    decreases |cs|
  {
    hide ChunkOk;
    if cs == [] {
      assert cs + [c] == [c] && [c][1..] == [];
      CountOkAny(c);
      assert ps + more == more;
      assert more != [] ==> more[1..] == [];
    } else {
      ChunksTail(cs);
      CountOkAny(cs[0]);
      ChunksTail(cs + [c]);
      assert cs[0] in cs && forall x | x in cs[1..] :: x in cs;
      assert (cs + [c])[1..] == cs[1..] + [c];
      match cs[0] {
        case Txn(_, _, _, at, count) =>
          if count < 3 || at + 2 <= last {
            CarriesAppend(cs[1..], last, ps, c, more, bound);
          } else {
            CarriesAppend(cs[1..], at + 2, ps[1..], c, more, bound);
            assert (ps + more)[1..] == ps[1..] + more;
          }
        case Mark(at, _, _) =>
          CarriesAppend(cs[1..], if at > last then at else last, ps, c, more, bound);
      }
    }
  }

  /** Whatever was committed ended by the last sequence replay reaches. */
  lemma {:induction false} CarriesEnded(cs: seq<Chunk>, last: u64, ps: seq<seq<u8>>)
    requires ChunksOk(cs) && Carries(cs, last, ps)
    ensures Ended(cs, LastOf(cs, last))
    decreases |cs|
  {
    hide ChunkOk;
    if cs != [] {
      ChunksTail(cs);
      CountOkAny(cs[0]);
      match cs[0] {
        case Txn(_, _, _, at, count) =>
          if count < 3 || at + 2 <= last {
            CarriesEnded(cs[1..], last, ps);
          } else {
            CarriesEnded(cs[1..], at + 2, ps[1..]);
          }
        case Mark(at, _, _) =>
          CarriesEnded(cs[1..], if at > last then at else last, ps);
      }
    }
  }

  /** When everything committed ended by `last`, nothing is left to apply. */
  lemma {:induction false} EndedCarries(cs: seq<Chunk>, last: u64, since: u64)
    requires ChunksOk(cs) && Ended(cs, last) && last <= since
    ensures Carries(cs, since, [])
    decreases |cs|
  {
    hide ChunkOk;
    if cs != [] {
      ChunksTail(cs);
      CountOkAny(cs[0]);
      assert cs[0] in cs && forall x | x in cs[1..] :: x in cs;
      match cs[0] {
        case Txn(_, _, _, at, count) =>
          EndedCarries(cs[1..], last, since);
        case Mark(at, _, _) =>
          EndedCarries(cs[1..], last, if at > since then at else since);
      }
    }
  }

  lemma {:induction false} LastBelow(cs: seq<Chunk>, last: u64, bound: nat)
    requires ChunksOk(cs) && Below(cs, bound) && last < bound
    ensures LastOf(cs, last) < bound
    decreases |cs|
  {
    hide ChunkOk;
    if cs != [] {
      ChunksTail(cs);
      CountOkAny(cs[0]);
      assert cs[0] in cs && forall x | x in cs[1..] :: x in cs;
      match cs[0] {
        case Txn(_, _, _, at, count) =>
          LastBelow(cs[1..], if count == 3 && at > last then at + 2 else last, bound);
        case Mark(at, _, _) =>
          LastBelow(cs[1..], if at > last then at else last, bound);
      }
    }
  }

  lemma {:induction false} CountOkAny(c: Chunk)
    requires ChunkOk(c)
    ensures c.Txn? ==> 1 <= c.count <= 3 && c.at + 2 <= MAX_U64
  {
  }

  lemma {:induction false} RecordsNonEmpty(cs: seq<Chunk>)
    requires ChunksOk(cs)
    ensures Records(cs) == [] <==> cs == []
  {
    if cs != [] {
      ChunksTail(cs);
      CountChunk(cs[0]);
    }
  }

  lemma {:induction false} CountChunk(c: Chunk)
    requires ChunkOk(c)
    ensures |RecordsIn(c)| == if c.Txn? then c.count else 1
  {
  }

  lemma {:induction false} RecordsWhole(cs: seq<Chunk>)
    requires ChunksOk(cs)
    ensures J.AllWhole(Records(cs), J.MAX_RECORD_BYTES)
    decreases |cs|
  {
    hide ChunkOk, RecordsIn, J.Whole;
    if cs != [] {
      ChunksTail(cs);
      ChunkWhole(cs[0]);
      RecordsWhole(cs[1..]);
    }
  }

  lemma {:induction false} ChunkWhole(c: Chunk)
    requires ChunkOk(c)
    ensures J.AllWhole(RecordsIn(c), J.MAX_RECORD_BYTES)
  {
    hide J.Make, J.Whole, IntentBody, CommitBody, Meaning;
    if c.Txn? {
      var t := Transaction(c.kind, c.framed, c.stamp, c.at);
      assert forall i | 0 <= i < 3 :: J.Whole(t[i], J.MAX_RECORD_BYTES);
    }
  }

  // ---- Opening --------------------------------------------------------------

  /** A journal of chunks and a tear scans to the chunks' records, and is never corrupt. */
  lemma {:induction false} ReplayOf(journal: seq<u8>, cs: seq<Chunk>, torn: seq<u8>)
    requires JournalIs(journal, cs, torn)
    ensures var p := J.Replay(journal, J.MAX_RECORD_BYTES);
            && p.records == Records(cs) && p.status != J.Corrupt && p.validBytes == |J.Flat(Records(cs))|
            && journal[..p.validBytes] == J.Flat(Records(cs))
            && (p.status == J.TruncatedTail <==> torn != [])
  {
    hide J.Flat, J.Scan, J.Whole, J.Bytes, Records, ChunkOk;
    RecordsWhole(cs);
    RecordsNonEmpty(cs);
    var r: J.Record :| J.Whole(r, J.MAX_RECORD_BYTES) && |torn| < |J.Bytes(r)| && torn == J.Bytes(r)[..|torn|];
    J.ScanAppended(Records(cs), torn, r, J.MAX_RECORD_BYTES);
  }

  /** Replaying what the snapshot does not hold completes the fold. */
  lemma {:induction false} DigestRebuilds(disk: Disk, o: Options, ps: seq<seq<u8>>, cs: seq<Chunk>, torn: seq<u8>, m: nat)
    requires DiskHolds(disk, o, ps, cs, torn, m, MAX_U64)
    ensures var d0 := Start(disk.snapshot, o).document;
            var s := Digest(Replaying(d0, map[]), Records(cs));
            && Core(s.document) == Core(FoldPayloads(EMPTY, ps)) && WellFormed(s.document)
            && s.document.lastSequence == LastOf(cs, d0.lastSequence) < MAX_U64
  {
    hide J.Flat, Start, WellFormed, Digest, LastOf, Records, Meaning, Core, ChunkOk, Below, Torn, Carries;
    var d0 := Start(disk.snapshot, o).document;
    MeansSlices(ps, m);
    DigestChunks(Replaying(d0, map[]), cs, ps[m..]);
    LastBelow(cs, d0.lastSequence, MAX_U64);
    CoreFold(d0, FoldPayloads(EMPTY, ps[..m]), ps[m..]);
    FoldPayloadsConcat(EMPTY, ps[..m], ps[m..]);
  }

  lemma {:induction false} OpenIs(disk: Disk, o: Options, detail: seq<u8>, cs: seq<Chunk>, torn: seq<u8>)
    requires JournalIs(disk.journal, cs, torn) && Start(disk.snapshot, o).Started?
    requires |disk.journal| <= J.MAX_JOURNAL_BYTES
    ensures var d0 := Start(disk.snapshot, o).document;
            var s := Digest(Replaying(d0, map[]), Records(cs));
            Open(disk, o, detail) == Opened(Finished(s, detail), Resumed(s.document.lastSequence),
                                            if torn != [] && !o.readOnly then J.Flat(Records(cs)) else disk.journal)
  {
    hide J.Replay, J.Flat, Start, Digest, Records, ChunkOk, Torn, Finished;
    ReplayOf(disk.journal, cs, torn);
  }

  /** What open rebuilds from a disk that holds the payloads. */
  lemma {:induction false} OpenRebuilds(disk: Disk, o: Options, detail: seq<u8>, ps: seq<seq<u8>>, cs: seq<Chunk>,
                                        torn: seq<u8>, m: nat)
    requires DiskHolds(disk, o, ps, cs, torn, m, MAX_U64) && |detail| <= NOTE_BOUND
    requires |disk.journal| <= J.MAX_JOURNAL_BYTES
    ensures var r := Open(disk, o, detail);
            && r.Opened? && Core(r.document) == Core(FoldPayloads(EMPTY, ps)) && WellFormed(r.document)
            && r.document.lastSequence == LastOf(cs, Start(disk.snapshot, o).document.lastSequence) < MAX_U64
            && r.next == r.document.lastSequence + 1
            && (!o.readOnly ==> r.journal == J.Flat(Records(cs)))
  {
    hide J.Flat, Start, WellFormed, Digest, LastOf, Records, Meaning, Core, ChunkOk, Below, Torn, Carries, Open, Finished;
    OpenIs(disk, o, detail, cs, torn);
    DigestRebuilds(disk, o, ps, cs, torn, m);
    FinishedKeeps(Digest(Replaying(Start(disk.snapshot, o).document, map[]), Records(cs)), detail);
    assert torn == [] ==> J.Flat(Records(cs)) + torn == J.Flat(Records(cs));
  }

  lemma {:induction false} MeansSlices(ps: seq<seq<u8>>, m: nat)
    requires AllMean(ps) && m <= |ps|
    ensures AllMean(ps[..m]) && AllMean(ps[m..]) && ps[..m] + ps[m..] == ps
  {
    hide Meaning;
    assert forall p | p in ps[..m] :: p in ps;
    assert forall p | p in ps[m..] :: p in ps;
  }

  /** The ambiguous attempts are ordinary attempts: a later checkpoint can write them. */
  lemma {:induction false} FinishedKeeps(s: Replaying, detail: seq<u8>)
    requires WellFormed(s.document) && |detail| <= NOTE_BOUND
    ensures WellFormed(Finished(s, detail)) && Core(Finished(s, detail)) == Core(s.document)
    ensures Finished(s, detail).lastSequence == s.document.lastSequence
  {
    hide Good, Ambiguous, EpochOk;
    EpochEntryGood(s.document);
    AmbiguousGood(s.pending, s.document.epoch, detail);
    var d, e := s.document, Finished(s, detail);
    var rows := d.attempts + Ambiguous(s.pending, d.epoch, detail);
    assert e == WithList(d, ATTEMPT_RECORD, rows);
    EpochOkFrame(d, e);
    assert AllGood(ATTEMPT_RECORD, List(d, ATTEMPT_RECORD));
  }

  lemma {:induction false} AmbiguousGood(pending: map<u64, Pending>, epoch: nat, detail: seq<u8>)
    requires epoch <= MAX_U64 && |detail| <= NOTE_BOUND
    ensures AllGood(ATTEMPT_RECORD, Ambiguous(pending, epoch, detail))
    decreases |pending|
  {
    hide Good;
    if pending != map[] {
      var id := Least(pending.Keys);
      assert (pending - {id}).Keys == pending.Keys - {id};
      AmbiguousRowGood(id, pending[id], epoch, detail);
      AmbiguousGood(pending - {id}, epoch, detail);
    }
  }

  lemma {:induction false} AmbiguousRowGood(id: u64, p: Pending, epoch: nat, detail: seq<u8>)
    requires epoch <= MAX_U64 && |detail| <= NOTE_BOUND
    ensures Good(ATTEMPT_RECORD, AmbiguousRow(id, p, epoch, detail))
  {
    hide Fits, Encode;
    AttemptFits(id, p.kind, epoch, detail);
  }

  lemma {:induction false} AttemptFits(id: u64, kind: u16, epoch: u64, detail: seq<u8>)
    requires |detail| <= NOTE_BOUND
    ensures var row := [Num(id), Num(id), Num(kind), Num(AMBIGUOUS), Num(epoch), Num(0), Num(0), Num(0), Note(detail)];
            Fits(ATTEMPT_LAYOUT, row) && |Encode(ATTEMPT_LAYOUT, row)| <= 1028 * 9
  {
    hide Fits, Encode;
    SpanValues();
    var row := [Num(id), Num(id), Num(kind), Num(AMBIGUOUS), Num(epoch), Num(0), Num(0), Num(0), Note(detail)];
    FitsWhen(ATTEMPT_LAYOUT, row);
    EncodeBound(ATTEMPT_LAYOUT, row, 1028);
  }

  // ---- Every step keeps the invariant ---------------------------------------

  lemma {:induction false} NoTear()
    ensures Torn([])
  {
    hide J.Make, J.Whole, J.Bytes;
    var r := J.Make(J.INTENT, 0, 0, 0, 0, []);
    assert J.Whole(r, J.MAX_RECORD_BYTES) && J.Bytes(r)[..0] == [];
    MakeNonEmpty(r);
  }

  lemma {:induction false} MakeNonEmpty(r: J.Record)
    ensures |J.Bytes(r)| >= J.HEADER_SIZE
  {
  }

  lemma {:induction false} MarksBelowLast(cs: seq<Chunk>, last: u64)
    requires ChunksOk(cs)
    ensures forall c | c in cs :: c.Mark? ==> c.at <= LastOf(cs, last)
    decreases |cs|
  {
    hide ChunkOk;
    if cs != [] {
      ChunksTail(cs);
      CountOkAny(cs[0]);
      assert forall c | c in cs :: c == cs[0] || c in cs[1..];
      match cs[0] {
        case Txn(_, _, _, at, count) =>
          MarksBelowLast(cs[1..], if count == 3 && at > last then at + 2 else last);
        case Mark(at, _, _) =>
          MarksBelowLast(cs[1..], if at > last then at else last);
      }
    }
  }

  lemma {:induction false} BootKeeps(s: System, o: Options, detail: seq<u8>)
    requires Inv(s, o) && s.process.Down? && Allowed(s, Boot(detail), o) && Within(s)
    ensures Inv(Act(s, Boot(detail), o), o)
  {
    hide J.Replay, J.Flat, Start, WellFormed, Records, Core, ChunkOk, Torn, Carries, LastOf, Open, OneWholeRecord,
        BelowBounds, Meaning;
    var ps := Payloads(s.committed);
    var cs, torn, m: nat :| DiskHolds(s.disk, o, ps, cs, torn, m, MAX_U64);
    OpenRebuilds(s.disk, o, detail, ps, cs, torn, m);
    var r := Open(s.disk, o, detail);
    var d0 := Start(s.disk.snapshot, o).document;
    CarriesEnded(cs, d0.lastSequence, ps[m..]);
    MarksBelowLast(cs, d0.lastSequence);
    NoTear();
    assert r.journal == J.Flat(Records(cs)) + [];
    assert Below(cs, r.next);
    assert DiskHolds(s.disk.(journal := r.journal), o, ps, cs, [], m, r.next);
    assert LiveHolds(r.document, r.next, ps, cs);
  }

  lemma {:induction false} PayloadsAppend(cs: seq<Commit>, c: Commit)
    ensures Payloads(cs + [c]) == Payloads(cs) + [c.payload]
  {
  }

  lemma {:induction false} TrimArranged(kind: u16, rows: seq<Row>, limit: nat)
    requires Arranged(kind, rows) && AllGood(kind, rows)
    ensures Arranged(kind, Trim(rows, limit)) && AllGood(kind, Trim(rows, limit))
  {
    hide Good;
    var t := Trim(rows, limit);
    assert t == rows[|rows| - |t|..];
    assert forall r | r in t :: r in rows;
  }

  function LimitOf(o: Options, kind: u16): nat {
    if kind == HISTORY_APPEND then o.maxHistory else if kind == INTERVENTION then o.maxInterventions
    else if kind == FENCE then o.maxFences else if kind == ATTEMPT_RECORD || kind == REVALIDATION then o.maxAttempts
    else if kind == PROVENANCE_APPEND then o.maxProvenance else 0
  }

  lemma {:induction false} PruneFrame(d: Document, o: Options, k: u16)
    ensures List(Prune(d, o), k) == Trim(List(d, k), LimitOf(o, k)) && Slot(Prune(d, o), k) == Slot(d, k)
    ensures EpochRow(Prune(d, o)) == EpochRow(d) && Prune(d, o).lastSequence == d.lastSequence
  {
  }

  lemma {:induction false} PruneWellFormed(d: Document, o: Options)
    requires WellFormed(d)
    ensures WellFormed(Prune(d, o)) && Prune(d, o).lastSequence == d.lastSequence
  {
    hide Good, Arranged, AllGood, List, Slot, EpochRow, EpochOk, Prune, IsList, IsSlot;
    forall k: u16
      ensures List(Prune(d, o), k) == Trim(List(d, k), LimitOf(o, k)) && Slot(Prune(d, o), k) == Slot(d, k)
      ensures IsList(k) ==> Arranged(k, List(Prune(d, o), k)) && AllGood(k, List(Prune(d, o), k))
    {
      PruneFrame(d, o, k);
      if IsList(k) {
        TrimArranged(k, List(d, k), LimitOf(o, k));
      }
    }
    PruneFrame(d, o, 0);
    EpochOkFrame(d, Prune(d, o));
  }

  lemma {:induction false} PruneCore(d: Document, e: Document, o: Options)
    requires Core(d) == Core(e) && BelowBounds(e, o)
    ensures Core(Prune(d, o)) == Core(d)
  {
  }

  lemma {:induction false} StampedWellFormed(d: Document, last: u64, authority: u64, mutations: u64)
    requires WellFormed(d)
    ensures WellFormed(d.(lastSequence := last, authority := authority, mutations := mutations))
  {
    hide Good, Arranged;
    var e := d.(lastSequence := last, authority := authority, mutations := mutations);
    EpochOkFrame(d, e);
    assert forall k: u16 :: List(e, k) == List(d, k) && Slot(e, k) == Slot(d, k);
  }

  /** The live document after a commit is the fold of one more payload. */
  lemma {:induction false} CommittedHolds(d: Document, o: Options, ps: seq<seq<u8>>, framed: seq<u8>, stamp: Stamp,
                                          last: u64)
    requires WellFormed(d) && Core(d) == Core(FoldPayloads(EMPTY, ps)) && AllMean(ps)
    requires Meaning(framed).Some? && |framed| <= J.MAX_RECORD_BYTES
    requires BelowBounds(FoldPayloads(EMPTY, ps + [framed]), o)
    ensures var e := Committed(d, o, framed, stamp, last);
            WellFormed(e) && Core(e) == Core(FoldPayloads(EMPTY, ps + [framed])) && e.lastSequence == last
  {
    hide WellFormed, Meaning, Apply, Prune, BelowBounds, Good;
    var (kind, row) := Meaning(framed).value;
    PayloadGood(framed);
    ApplyWellFormed(d, kind, row);
    var e := Apply(d, kind, row);
    var f := e.(lastSequence := last, authority := stamp.generation, mutations := Bumped(e.mutations));
    StampedWellFormed(e, last, stamp.generation, Bumped(e.mutations));
    PruneWellFormed(f, o);
    FoldPayloadsConcat(EMPTY, ps, [framed]);
    var whole := FoldPayloads(EMPTY, ps);
    CoreApply(d, whole, kind, row);
    assert [framed][1..] == [];
    assert FoldPayloads(Apply(whole, kind, row), []) == Apply(whole, kind, row);
    assert FoldPayloads(whole, [framed]) == Apply(whole, kind, row);
    PruneCore(f, FoldPayloads(EMPTY, ps + [framed]), o);
  }

  /** The disk after `count` records of a new transaction. */
  lemma {:induction false} DiskAfter(disk: Disk, o: Options, ps: seq<seq<u8>>, cs: seq<Chunk>, m: nat, next: u64,
                                     c: Chunk, torn: seq<u8>)
    requires DiskHolds(disk, o, ps, cs, [], m, next) && Torn(torn) && next + 3 <= MAX_U64
    requires ChunkOk(c) && c.Txn? && c.at == next
    ensures DiskHolds(disk.(journal := disk.journal + J.Flat(RecordsIn(c)) + torn), o,
                      if c.count == 3 then ps + [c.framed] else ps, cs + [c], torn, m, next + c.count)
  {
    hide WellFormed, Records, RecordsIn, Core, ChunkOk, Torn, Carries, LastOf, Start, Meaning, J.Flat;
    RecordsAppend(cs, c);
    CountOkAny(c);
    var more := if c.count == 3 then [c.framed] else [];
    var d0 := Start(disk.snapshot, o).document;
    CarriesAppend(cs, d0.lastSequence, ps[m..], c, more, next);
    assert ps + [] == ps && ps[m..] + [] == ps[m..];
    assert (ps + more)[..m] == ps[..m] && (ps + more)[m..] == ps[m..] + more;
    MeansMore(ps, c);
    assert forall x | x in cs + [c] :: x in cs || x == c;
    var journal := disk.journal + J.Flat(RecordsIn(c)) + torn;
    assert disk.journal == J.Flat(Records(cs));
    assert journal == J.Flat(Records(cs + [c])) + torn;
  }

  lemma {:induction false} MeansMore(ps: seq<seq<u8>>, c: Chunk)
    requires AllMean(ps) && ChunkOk(c) && c.Txn?
    ensures AllMean(ps + [c.framed])
  {
    hide Meaning;
  }

  lemma {:induction false} BelowMore(cs: seq<Chunk>, b: nat, c: nat)
    requires Below(cs, b) && b <= c
    ensures Below(cs, c)
  {
  }

  lemma {:induction false} MutateKeeps(s: System, o: Options, kind: u16, body: seq<u8>, stamp: Stamp)
    requires Inv(s, o) && s.process.Up? && Allowed(s, Mutate(kind, body, stamp), o)
    ensures Inv(Act(s, Mutate(kind, body, stamp), o), o)
  {
    hide DiskHolds, LiveHolds, Meaning, Plan, Mutated, OneWholeRecord, FoldPayloads, Core, WellFormed, Frame;
    var d, next := s.process.document, s.process.next;
    var w := Plan(d, next, |s.disk.journal|, o, kind, body, stamp);
    if w.Writing? {
      var cs, m: nat :|
        DiskHolds(s.disk, o, Payloads(s.committed), cs, [], m, next) && LiveHolds(d, next, Payloads(s.committed), cs);
      hide BelowBounds;
      if w.count == 3 {
        WholeHolds(s, d, next, w, o, kind, stamp, cs, m);
      } else {
        PartHolds(s, d, next, w, o, kind, stamp, cs, m);
      }
    }
  }

  /** A commit of which the journal took fewer than three records. */
  lemma {:induction false} PartHolds(s: System, d: Document, next: u64, w: Writing, o: Options, kind: u16, stamp: Stamp,
                                     cs: seq<Chunk>, m: nat)
    requires PlanFor(w, kind, stamp, next) && s.process == Up(d, next) && w.count < 3
    requires DiskHolds(s.disk, o, Payloads(s.committed), cs, [], m, next) && LiveHolds(d, next, Payloads(s.committed), cs)
    ensures Inv(Mutated(s, d, next, w, o, stamp), o)
  {
    hide DiskHolds, WellFormed, Records, Core, Meaning, J.Flat, J.Make, Committed, ChunkOk, Ended, Below, Wrapped;
    hide Transaction, RecordsIn, FoldPayloads, J.Bytes, Torn, Payloads;
    var t, ps, n := Mutated(s, d, next, w, o, stamp), Payloads(s.committed), w.count;
    NotWrapped(next + n);
    if n == 0 {
      assert J.Flat(w.records[..0]) == [] by {
        FlatNothing();
      }
      assert t == s;
    } else {
      var c := Txn(kind, w.framed, stamp, next, n);
      TxnOk(c);
      NoTear();
      DiskAfter(s.disk, o, ps, cs, m, next, c, []);
      assert t.disk.journal == s.disk.journal + J.Flat(RecordsIn(c)) + [];
      assert DiskHolds(t.disk, o, ps, cs + [c], [], m, next + n);
      EndedSame(cs, c, d.lastSequence);
      assert LiveHolds(d, next + n, ps, cs + [c]);
    }
  }

  /** A commit of which it took all three. */
  lemma {:induction false} WholeHolds(s: System, d: Document, next: u64, w: Writing, o: Options, kind: u16, stamp: Stamp,
                                      cs: seq<Chunk>, m: nat)
    requires PlanFor(w, kind, stamp, next) && s.process == Up(d, next) && w.count == 3
    requires DiskHolds(s.disk, o, Payloads(s.committed), cs, [], m, next) && LiveHolds(d, next, Payloads(s.committed), cs)
    requires BelowBounds(FoldPayloads(EMPTY, Payloads(Mutated(s, d, next, w, o, stamp).committed)), o)
    ensures Inv(Mutated(s, d, next, w, o, stamp), o)
  {
    hide WellFormed, Records, Core, Torn, Carries, LastOf, Start, Meaning, J.Flat, J.Make, BelowBounds;
    hide Committed, ChunkOk, Ended, Below, Wrapped;
    var t, ps := Mutated(s, d, next, w, o, stamp), Payloads(s.committed);
    NotWrapped(next + 2);
    NotWrapped(next + 3);
    var c := Txn(kind, w.framed, stamp, next, 3);
    TxnOk(c);
    NoTear();
    DiskAfter(s.disk, o, ps, cs, m, next, c, []);
    assert t.disk.journal == s.disk.journal + J.Flat(RecordsIn(c)) + [];
    PayloadsAppend(s.committed, Commit(w.framed, true));
    CommittedHolds(d, o, ps, w.framed, stamp, next + 2);
    EndedMore(cs, c, next, next + 2);
    assert LiveHolds(t.process.document, next + 3, ps + [w.framed], cs + [c]);
  }

  lemma {:induction false} FlatNothing()
    ensures J.Flat([]) == []
  {
  }

  lemma {:induction false} TxnOk(c: Chunk)
    requires c.Txn? && 1 <= c.count <= 3 && c.kind != 0 && c.kind != KIND_COUNT && c.at + 3 <= MAX_U64
    requires |c.framed| <= J.MAX_RECORD_BYTES && Meaning(c.framed).Some?
    ensures ChunkOk(c) && RecordsIn(c) == Transaction(c.kind, c.framed, c.stamp, c.at)[..c.count]
  {
  }

  lemma {:induction false} EndedMore(cs: seq<Chunk>, c: Chunk, bound: nat, last: u64)
    requires Below(cs, bound) && bound <= last && c.Txn? && c.at + 2 == last
    ensures Ended(cs + [c], last)
  {
  }

  lemma {:induction false} EndedSame(cs: seq<Chunk>, c: Chunk, last: u64)
    requires Ended(cs, last) && c.Txn? && c.count < 3
    ensures Ended(cs + [c], last)
  {
  }

  /** A tear with no whole record before it is an empty journal. */
  lemma {:induction false} NoFirstTear(torn: seq<u8>)
    requires Torn(torn) && OneWholeRecord(torn)
    ensures torn == []
  {
    hide J.Whole, J.Bytes, J.Scan;
    var r: J.Record :| J.Whole(r, J.MAX_RECORD_BYTES) && |torn| < |J.Bytes(r)| && torn == J.Bytes(r)[..|torn|];
    FlatNothing();
    assert J.Flat([]) + torn == torn;
    J.ScanAppended([], torn, r, J.MAX_RECORD_BYTES);
  }

  lemma {:induction false} TornIs(r: J.Record, n: nat)
    requires J.Whole(r, J.MAX_RECORD_BYTES) && n < |J.Bytes(r)|
    ensures Torn(J.Bytes(r)[..n])
  {
    hide J.Whole, J.Bytes;
    var torn := J.Bytes(r)[..n];
    assert |torn| == n;
  }

  /** The disk with any prefix of a transaction's records on it: the whole records and a tear. */
  lemma {:induction false} CutHolds(disk: Disk, o: Options, ps: seq<seq<u8>>, cs: seq<Chunk>, m: nat, next: u64,
                 kind: u16, w: Writing, stamp: Stamp, kept: nat)
    requires DiskHolds(disk, o, ps, cs, [], m, next) && PlanFor(w, kind, stamp, next)
    requires kept <= |J.Flat(w.records[..w.count])|
    requires OneWholeRecord(disk.journal + J.Flat(w.records[..w.count])[..kept])
    ensures var ps' := if J.WholeIn(w.records[..w.count], kept) == 3 then ps + [w.framed] else ps;
            exists cs', torn ::
              DiskHolds(disk.(journal := disk.journal + J.Flat(w.records[..w.count])[..kept]), o, ps', cs', torn, m,
                  MAX_U64)
  {
    hide WellFormed, Records, Core, Torn, Carries, LastOf, Start, Meaning, J.Flat, J.Make, OneWholeRecord;
    hide J.WholeIn, J.Whole, J.Bytes, ChunkOk, Transaction, Below, JournalIs, DiskHolds;
    var rs := w.records[..w.count];
    var k := J.WholeIn(rs, kept);
    J.Cut(rs, kept);
    var torn := J.Flat(rs)[|J.Flat(rs[..k])|..kept];
    TornTail(kind, w, stamp, next, rs, kept, k, torn);
    var journal := disk.journal + J.Flat(rs)[..kept];
    if k == 0 {
      FlatNothing();
      assert rs[..0] == [];
      assert journal == disk.journal + torn;
      TornOnly(disk, o, ps, cs, m, next, torn);
    } else {
      var c := Txn(kind, w.framed, stamp, next, k);
      TxnOk(c);
      assert rs[..k] == w.records[..k];
      DiskAfter(disk, o, ps, cs, m, next, c, torn);
      assert journal == disk.journal + J.Flat(RecordsIn(c)) + torn;
      BelowDisk(disk.(journal := journal), o, if k == 3 then ps + [w.framed] else ps, cs + [c], torn, m, next + k);
    }
  }

  predicate PlanFor(w: Writing, kind: u16, stamp: Stamp, next: u64) {
    && w.Writing? && Meaning(w.framed).Some? && |w.framed| <= J.MAX_RECORD_BYTES && next + 3 <= MAX_U64
    && kind != 0 && kind != KIND_COUNT
    && w.records == Transaction(kind, w.framed, stamp, next) && w.count <= 3
  }

  lemma {:induction false} BelowDisk(disk: Disk, o: Options, ps: seq<seq<u8>>, cs: seq<Chunk>, torn: seq<u8>, m: nat,
                                     bound: nat)
    requires DiskHolds(disk, o, ps, cs, torn, m, bound) && bound <= MAX_U64
    ensures DiskHolds(disk, o, ps, cs, torn, m, MAX_U64)
  {
    hide WellFormed, Core, Start, Meaning, Carries, JournalIs;
    BelowMore(cs, bound, MAX_U64);
  }

  lemma {:induction false} MutateCrashKeeps(s: System, o: Options, kind: u16, body: seq<u8>, stamp: Stamp, cut: nat)
    requires Inv(s, o) && s.process.Up? && Allowed(s, MutateCrash(kind, body, stamp, cut), o)
    ensures Inv(Act(s, MutateCrash(kind, body, stamp, cut), o), o)
  {
    hide DiskHolds, LiveHolds, Meaning, J.Flat, Plan, OneWholeRecord, BelowBounds, J.WholeIn, Frame, Transaction;
    var d, next := s.process.document, s.process.next;
    var w := Plan(d, next, |s.disk.journal|, o, kind, body, stamp);
    var ps := Payloads(s.committed);
    var cs, m: nat :| DiskHolds(s.disk, o, ps, cs, [], m, next) && LiveHolds(d, next, ps, cs);
    if w.Nothing? {
      BelowDisk(s.disk, o, ps, cs, [], m, next);
    } else {
      var rs := w.records[..w.count];
      var kept := if cut <= |J.Flat(rs)| then cut else |J.Flat(rs)|;
      CutHolds(s.disk, o, ps, cs, m, next, kind, w, stamp, kept);
      PayloadsAppend(s.committed, Commit(w.framed, false));
    }
  }

  lemma {:induction false} TornTail(kind: u16, w: Writing, stamp: Stamp, next: u64, rs: seq<J.Record>, kept: nat,
                                    k: nat, torn: seq<u8>)
    requires w.Writing? && |w.framed| <= J.MAX_RECORD_BYTES && next + 3 <= MAX_U64
    requires w.records == Transaction(kind, w.framed, stamp, next) && w.count <= 3 && rs == w.records[..w.count]
    requires kept <= |J.Flat(rs)| && k == J.WholeIn(rs, kept) && |J.Flat(rs[..k])| <= kept
    requires torn == J.Flat(rs)[|J.Flat(rs[..k])|..kept]
    requires k < |rs| ==>
               && kept - |J.Flat(rs[..k])| < |J.Bytes(rs[k])|
               && torn == J.Bytes(rs[k])[..kept - |J.Flat(rs[..k])|]
    requires k == |rs| ==> kept == |J.Flat(rs)|
    ensures Torn(torn)
  {
    hide J.Whole, J.Bytes, J.Flat, J.WholeIn, J.Make, IntentBody, CommitBody;
    if k < |rs| {
      assert J.Whole(rs[k], J.MAX_RECORD_BYTES);
      TornIs(rs[k], kept - |J.Flat(rs[..k])|);
    } else {
      assert rs[..k] == rs;
      assert torn == [];
      NoTear();
    }
  }

  lemma {:induction false} TornOnly(disk: Disk, o: Options, ps: seq<seq<u8>>, cs: seq<Chunk>, m: nat, next: u64,
                                    torn: seq<u8>)
    requires DiskHolds(disk, o, ps, cs, [], m, next) && Torn(torn) && OneWholeRecord(disk.journal + torn)
    ensures DiskHolds(disk.(journal := disk.journal + torn), o, ps, cs, torn, m, MAX_U64)
  {
    hide WellFormed, Core, Torn, Carries, Start, Meaning, J.Flat, OneWholeRecord, ChunkOk;
    BelowMore(cs, next, MAX_U64);
    assert disk.journal == J.Flat(Records(cs));
    if cs == [] {
      FlatNothing();
      assert disk.journal + torn == torn;
      NoFirstTear(torn);
    }
  }

  lemma {:induction false} MarkChunk(d: Document, next: u64)
    ensures var c := Mark(next, Wrapped(d.epoch), d.authority);
            && ChunkOk(c) && Records([c]) == [MarkRecord(d, next)]
            && J.Flat(Records([c])) == J.Bytes(MarkRecord(d, next))
            && J.Whole(MarkRecord(d, next), J.MAX_RECORD_BYTES)
  {
    hide J.Make, J.Bytes, J.Whole;
    var c := Mark(next, Wrapped(d.epoch), d.authority);
    assert [c][1..] == [];
    assert Records([c]) == RecordsIn(c) + Records([]);
    FlatNothing();
    assert [MarkRecord(d, next)][1..] == [];
    assert J.Flat([MarkRecord(d, next)]) == J.Bytes(MarkRecord(d, next)) + J.Flat([]);
  }

  /** A disk whose snapshot was just replaced, with a journal of which nothing is left to apply. */
  lemma {:induction false} ReplacedHolds(o: Options, d: Document, ps: seq<seq<u8>>, cs: seq<Chunk>, torn: seq<u8>,
                                         journal: seq<u8>, bound: nat)
    requires WellFormed(d) && Compact(d) && Core(d) == Core(FoldPayloads(EMPTY, ps)) && AllMean(ps)
    requires |Entries(d)| <= SnapshotLimit(o) && d.lastSequence < bound
    requires JournalIs(journal, cs, torn) && Below(cs, bound) && Carries(cs, d.lastSequence, [])
    ensures DiskHolds(Disk(Some(SnapshotBytes(d)), journal), o, ps, cs, torn, |ps|, bound)
  {
    hide SnapshotBytes, WellFormed, Meaning, Entries, Carries, JournalIs, Below, Compact, Core, Start;
    RestoredStart(d, o);
    assert ps[..|ps|] == ps && ps[|ps|..] == [];
  }

  lemma {:induction false} RestoredStart(d: Document, o: Options)
    requires WellFormed(d) && Compact(d) && |Entries(d)| <= SnapshotLimit(o)
    ensures var r := Start(Some(SnapshotBytes(d)), o);
            r.Started? && WellFormed(r.document) && Core(r.document) == Core(d)
                && r.document.lastSequence == d.lastSequence
  {
    hide SnapshotBytes, WellFormed, Entries, Compact, Core, Start;
    CheckpointRestores(d, o);
    KeptSame(d);
  }

  lemma {:induction false} KeptSame(d: Document)
    requires WellFormed(d)
    ensures WellFormed(Kept(d)) && Core(Kept(d)) == Core(d) && Kept(d).lastSequence == d.lastSequence
  {
    StampedWellFormed(d, d.lastSequence, 0, 0);
  }

  lemma {:induction false} CompactionKeeps(s: System, o: Options)
    requires Inv(s, o) && s.process.Up? && Allowed(s, Compaction, o)
    ensures Inv(Act(s, Compaction, o), o)
  {
    hide WellFormed, Core, Torn, Start, Meaning, J.Flat, J.Make, OneWholeRecord, BelowBounds, SnapshotBytes, Compact,
        Entries;
    hide ChunkOk, Records, J.Bytes, J.Whole, MarkRecord;
    hide Wrapped;
    NotWrapped(s.process.next + 1);
    var d, next := s.process.document, s.process.next;
    var ps := Payloads(s.committed);
    var cs, m: nat :| DiskHolds(s.disk, o, ps, cs, [], m, next) && LiveHolds(d, next, ps, cs);
    if WellFormed(d) && Compact(d) {
      var c := Mark(next, Wrapped(d.epoch), d.authority);
      MarkChunk(d, next);
      NoTear();
      var journal := J.Bytes(MarkRecord(d, next));
      assert journal == J.Flat(Records([c])) + [];
      ReplacedHolds(o, d, ps, [c], [], journal, next + 1);
      assert LiveHolds(d, next + 1, ps, [c]);
    }
  }

  lemma {:induction false} CompactionCrashKeeps(s: System, o: Options, stage: Stage)
    requires Inv(s, o) && s.process.Up? && Allowed(s, CompactionCrash(stage), o)
    ensures Inv(Act(s, CompactionCrash(stage), o), o)
  {
    hide WellFormed, Core, Torn, Start, Meaning, J.Flat, J.Make, OneWholeRecord, BelowBounds, SnapshotBytes, Compact,
        Entries;
    hide ChunkOk, Records, J.Bytes, J.Whole, MarkRecord, Ended, Below, Carries;
    var d, next := s.process.document, s.process.next;
    var ps := Payloads(s.committed);
    var cs, m: nat :| DiskHolds(s.disk, o, ps, cs, [], m, next) && LiveHolds(d, next, ps, cs);
    BelowDisk(s.disk, o, ps, cs, [], m, next);
    BelowMore(cs, next, MAX_U64);
    if WellFormed(d) && Compact(d) && !stage.BeforeReplace? {
      var t := Act(s, CompactionCrash(stage), o);
      if stage.AfterReplace? {
        EndedCarries(cs, d.lastSequence, d.lastSequence);
        ReplacedHolds(o, d, ps, cs, [], s.disk.journal, MAX_U64);
      } else {
        ReplacedJournal(d, next, t.disk.journal, stage);
        var es :| EmptiedJournal(t.disk.journal, es, d.lastSequence);
        ReplacedHolds(o, d, ps, es, [], t.disk.journal, MAX_U64);
      }
    }
  }

  ghost predicate EmptiedJournal(journal: seq<u8>, cs: seq<Chunk>, last: u64) {
    JournalIs(journal, cs, []) && Below(cs, MAX_U64) && Carries(cs, last, [])
  }

  /** The emptied journal, with or without its rebase marker. */
  lemma {:induction false} ReplacedJournal(d: Document, next: u64, journal: seq<u8>, stage: Stage)
    requires stage.Emptied? || (stage.Marking? && OneWholeRecord(journal))
    requires next < MAX_U64
    requires journal == if stage.Emptied? then []
                        else var mark := J.Bytes(MarkRecord(d, next));
                             mark[..if stage.cut <= |mark| then stage.cut else |mark|]
    ensures exists cs :: EmptiedJournal(journal, cs, d.lastSequence)
  {
    hide Torn, J.Flat, J.Make, OneWholeRecord, J.Bytes, J.Whole, MarkRecord;
    NoTear();
    FlatNothing();
    assert EmptiedJournal([], [], d.lastSequence) by {
      assert Records([]) == [];
    }
    if stage.Marking? {
      MarkChunk(d, next);
      var mark := J.Bytes(MarkRecord(d, next));
      if stage.cut < |mark| {
        TornIs(MarkRecord(d, next), stage.cut);
        NoFirstTear(journal);
      } else {
        var c := Mark(next, Wrapped(d.epoch), d.authority);
        assert mark[..|mark|] == mark;
        assert journal == J.Flat(Records([c])) + [];
        assert [c][1..] == [];
        assert Carries([c][1..], if next > d.lastSequence then next else d.lastSequence, []);
        assert Carries([c], d.lastSequence, []);
        assert EmptiedJournal(journal, [c], d.lastSequence);
      }
    }
  }

  lemma {:induction false} KillKeeps(s: System, o: Options)
    requires Inv(s, o)
    ensures Inv(s.(process := Down), o)
  {
    hide DiskHolds, LiveHolds;
    var ps := Payloads(s.committed);
    match s.process {
      case Down =>
      case Up(d, next) =>
        var cs, m: nat :| DiskHolds(s.disk, o, ps, cs, [], m, next) && LiveHolds(d, next, ps, cs);
        BelowDisk(s.disk, o, ps, cs, [], m, next);
    }
  }

  lemma {:induction false} FreshHolds(o: Options)
    ensures Inv(FRESH_SYSTEM, o)
  {
    hide Torn, J.Flat, Meaning;
    NoTear();
    FlatNothing();
    assert Records([]) == [];
    assert Payloads([]) == [];
    assert WellFormed(EMPTY);
    assert Start(None, o) == Started(EMPTY, false);
    assert DiskHolds(FRESH_SYSTEM.disk, o, [], [], [], 0, MAX_U64);
  }

  lemma {:induction false} StepKeeps(s: System, e: Event, o: Options)
    requires Inv(s, o) && Allowed(s, e, o) && Within(s)
    ensures Inv(Act(s, e, o), o)
  {
    hide Inv, Allowed, Open, Plan, Mutated, MutateCut, Compact, WellFormed, SnapshotBytes, Replaced, MarkRecord, J.Bytes;
    match (s.process, e) {
      case (Down, Boot(detail)) => BootKeeps(s, o, detail);
      case (Up(_, _), Mutate(kind, body, stamp)) => MutateKeeps(s, o, kind, body, stamp);
      case (Up(_, _), MutateCrash(kind, body, stamp, cut)) => MutateCrashKeeps(s, o, kind, body, stamp, cut);
      case (Up(_, _), Compaction) => CompactionKeeps(s, o);
      case (Up(_, _), CompactionCrash(stage)) => CompactionCrashKeeps(s, o, stage);
      case (_, Kill) => KillKeeps(s, o);
      case _ =>
    }
  }

  // ---- The journal stays within its bound -----------------------------------

  /** The journal is one that `open` still reads. */
  predicate Within(s: System) {
    |s.disk.journal| <= J.MAX_JOURNAL_BYTES
  }

  /** The records a journal takes leave it within its bound. */
  lemma {:induction false} WrittenFits(o: Options, size: nat, rs: seq<J.Record>)
    requires size <= J.MAX_JOURNAL_BYTES
    ensures size + |J.Flat(rs[..Written(o, size, rs)])| <= J.MAX_JOURNAL_BYTES
    decreases |rs|
  {
    hide J.Bytes;
    if Written(o, size, rs) == 0 {
      assert rs[..0] == [];
    } else {
      var n := Written(o, size, rs);
      var next := size + |J.Bytes(rs[0])|;
      assert rs[..n][0] == rs[0] && rs[..n][1..] == rs[1..][..n - 1];
      WrittenFits(o, next, rs[1..]);
    }
  }

  lemma {:induction false} PlanWritten(d: Document, next: u64, size: nat, o: Options, kind: u16, body: seq<u8>,
                                       stamp: Stamp)
    ensures var w := Plan(d, next, size, o, kind, body, stamp);
            w.Writing? ==> w.count == Written(o, size, w.records)
  {
    hide CommitCheck, Written;
  }

  lemma {:induction false} OpenShortens(disk: Disk, o: Options, detail: seq<u8>)
    ensures var r := Open(disk, o, detail); r.Opened? ==> |r.journal| <= |disk.journal|
  {
    hide Start, J.Replay, Digest, Finished;
    J.ReplayExact(disk.journal, J.MAX_RECORD_BYTES);
  }

  lemma {:induction false} StepWithin(s: System, e: Event, o: Options)
    requires Within(s)
    ensures Within(Act(s, e, o))
  {
    hide Open, Plan, Compact, WellFormed, SnapshotBytes, J.Flat, J.WholeIn, MarkRecord, Committed, J.EncodeHeader;
    if e.Boot? {
      OpenShortens(s.disk, o, e.detail);
    } else if s.process.Up? && (e.Mutate? || e.MutateCrash?) {
      var d, next, size := s.process.document, s.process.next, |s.disk.journal|;
      var w := Plan(d, next, size, o, e.kind, e.body, e.stamp);
      PlanWritten(d, next, size, o, e.kind, e.body, e.stamp);
      if w.Writing? {
        WrittenFits(o, size, w.records);
      }
    } else if s.process.Up? {
      MarkSize(s.process.document, s.process.next);
    }
  }

  lemma {:induction false} MarkSize(d: Document, next: u64)
    ensures |J.Bytes(MarkRecord(d, next))| == J.HEADER_SIZE
  {
    hide J.ComputedCrc, J.Whole;
  }

  /** Whatever happens, the journal never outgrows what `open` reads. */
  lemma {:induction false} JournalStaysWithin(es: seq<Event>, o: Options)
    ensures Within(Run(es, o))
    decreases |es|
  {
    hide Act;
    if es != [] {
      JournalStaysWithin(es[..|es| - 1], o);
      StepWithin(Run(es[..|es| - 1], o), es[|es| - 1], o);
    }
  }

  lemma {:induction false} RunKeeps(es: seq<Event>, o: Options)
    requires AllowedRun(es, o)
    ensures Inv(Run(es, o), o)
    decreases |es|
  {
    hide Inv, Act, Allowed;
    if es == [] {
      FreshHolds(o);
    } else {
      RunKeeps(es[..|es| - 1], o);
      JournalStaysWithin(es[..|es| - 1], o);
      StepKeeps(Run(es[..|es| - 1], o), es[|es| - 1], o);
    }
  }

  // ---- The main results -----------------------------------------------------

  /** Crash recovery. Over any run of opens, commits, checkpoints and crashes at any
      byte, opening the disk succeeds and rebuilds exactly the fold of the payloads
      whose commit record is whole on disk, in order. */
  lemma {:induction false} RecoveryIsTheFold(es: seq<Event>, o: Options, detail: seq<u8>)
    requires AllowedRun(es, o) && |detail| <= NOTE_BOUND
    ensures var s := Run(es, o); var r := Open(s.disk, o, detail);
            && r.Opened? && Core(r.document) == Core(FoldPayloads(EMPTY, Payloads(s.committed)))
            && WellFormed(r.document)
  {
    hide Act, Allowed, Open, WellFormed, Core, DiskHolds, LiveHolds;
    RunKeeps(es, o);
    JournalStaysWithin(es, o);
    var s := Run(es, o);
    KillKeeps(s, o);
    var ps := Payloads(s.committed);
    var cs, torn, m: nat :| DiskHolds(s.disk, o, ps, cs, torn, m, MAX_U64);
    OpenRebuilds(s.disk, o, detail, ps, cs, torn, m);
  }

  /** The live document is the same fold: what a reader sees is what a crash would leave. */
  lemma {:induction false} LiveIsTheFold(es: seq<Event>, o: Options)
    requires AllowedRun(es, o) && Run(es, o).process.Up?
    ensures var s := Run(es, o);
            Core(s.process.document) == Core(FoldPayloads(EMPTY, Payloads(s.committed))) && WellFormed(s.process.document)
  {
    hide Act, Allowed, DiskHolds, WellFormed, Core;
    RunKeeps(es, o);
  }

  /** A step only ever adds to the commits. */
  lemma {:induction false} CommitsOnlyGrow(s: System, e: Event, o: Options)
    ensures |s.committed| <= |Act(s, e, o).committed| <= |s.committed| + 1
    ensures Act(s, e, o).committed[..|s.committed|] == s.committed
  {
    hide Open, Plan, Committed, Compact, WellFormed, SnapshotBytes, Replaced, MarkRecord, J.Bytes, J.Flat, J.WholeIn;
  }

  /** What was committed after the first steps of a run is still committed after all of them. */
  lemma {:induction false} CommitsStay(es: seq<Event>, n: nat, o: Options)
    requires n <= |es|
    ensures |Run(es[..n], o).committed| <= |Run(es, o).committed|
    ensures Run(es[..n], o).committed == Run(es, o).committed[..|Run(es[..n], o).committed|]
    decreases |es|
  {
    hide Act;
    if n < |es| {
      var front := es[..|es| - 1];
      assert front[..n] == es[..n];
      CommitsStay(front, n, o);
      CommitsOnlyGrow(Run(front, o), es[|es| - 1], o);
    } else {
      assert es[..n] == es;
    }
  }

  /** A commit that was acknowledged is in every later recovery: its payload keeps its
      place in the fold. */
  lemma {:induction false} AcknowledgedIsRecovered(es: seq<Event>, n: nat, o: Options, detail: seq<u8>, i: nat)
    requires AllowedRun(es, o) && |detail| <= NOTE_BOUND && n <= |es| && i < |Run(es[..n], o).committed|
    ensures var s := Run(es, o); var r := Open(s.disk, o, detail);
            && r.Opened? && Core(r.document) == Core(FoldPayloads(EMPTY, Payloads(s.committed)))
            && i < |s.committed| && Payloads(s.committed)[i] == Run(es[..n], o).committed[i].payload
  {
    hide Act, Allowed, Open, Core;
    RecoveryIsTheFold(es, o, detail);
    CommitsStay(es, n, o);
    var x, y := Run(es[..n], o).committed, Run(es, o).committed;
    assert y[..|x|][i] == y[i];
  }
}
