/** One commit of the store in full: when it is acknowledged, what reaches the disk, and what
    the document holds afterwards (src/durability/store.cpp, src/durability/journal.cpp). */
module Commits {
  import opened Words
  import opened Model
  import opened Layout
  import opened StoreCodec
  import opened Document
  import opened Checkpoint
  import opened Recovery
  import opened StoreRuns
  import J = Journal
  import D = Store

  /** The mutation is of a kind, its body is a row of that kind within the record bound, and
      there is room for a domain. */
  predicate Committable(d: Document, o: Options, kind: u16, body: seq<u8>) {
    && kind != 0 && kind != 12 && |body| + 2 <= 0x40_0000
    && (kind == DOMAIN_STATE ==> |d.domains| < o.maxDomains)
    && DecodeBody(kind, body).Accepted?
  }

  lemma {:induction false} CheckExact(d: Document, o: Options, kind: u16, body: seq<u8>)
    ensures var e := CommitCheck(d, o, kind, body);
            && (e.None? <==> Committable(d, o, kind, body))
            && (e == Some(NoKind) <==> kind == 0 || kind == 12)
            && (e == Some(BodyTooLarge) <==> kind != 0 && kind != 12 && |body| > 0x40_0000 - 2)
            && (e == Some(DomainsFull) <==>
                  kind == DOMAIN_STATE && |body| + 2 <= 0x40_0000 && |d.domains| >= o.maxDomains)
            && (e.Some? && e.value.Undecodable? <==>
                  && kind != 0 && kind != 12 && |body| + 2 <= 0x40_0000
                  && (kind == DOMAIN_STATE ==> |d.domains| < o.maxDomains) && DecodeBody(kind, body).Rejected?)
            && !(e.Some? && (e.value.JournalRefused? || e.value.NotOpen?))
  {
    hide DecodeBody;
  }

  lemma {:induction false} AppendExact(o: Options, size: nat, payload: seq<u8>)
    ensures J.AppendCheck(JournalOptions(o), size, payload).Done?
       <==> !o.readOnly && |payload| <= 0x40_0000 && size + 64 + |payload| <= 0x4_0000_0000
  {
  }

  /** Of the 82, 64 + |framed| and 70 bytes of the records the journal takes as many as fit. */
  lemma {:induction false} TakenExact(o: Options, size: nat, kind: u16, framed: seq<u8>, stamp: Stamp, at: u64)
    requires |framed| <= J.MAX_RECORD_BYTES
    ensures var rs := Transaction(kind, framed, stamp, at);
            var n := Written(o, size, rs);
            && |J.Bytes(rs[0])| == 82 && |J.Bytes(rs[1])| == 64 + |framed| && |J.Bytes(rs[2])| == 70
            && (n >= 1 <==> !o.readOnly && size + 82 <= 0x4_0000_0000)
            && (n >= 2 <==> !o.readOnly && size + 146 + |framed| <= 0x4_0000_0000)
            && (n >= 3 <==> !o.readOnly && size + 216 + |framed| <= 0x4_0000_0000)
  {
    var rs := Transaction(kind, framed, stamp, at);
    D.WrittenSteps(o, size, rs);
    assert rs[0].payload == IntentBody(kind, stamp) && rs[1].payload == framed;
    assert rs[2].payload == CommitBody(kind, framed);
    AppendExact(o, size, rs[0].payload);
    AppendExact(o, size + 82, rs[1].payload);
    AppendExact(o, size + 146 + |framed|, rs[2].payload);
    hide J.AppendCheck, Written;
  }

  /** The row applied, each list cut to its newest rows, and the stamp. */
  predicate Became(e: Document, o: Options, stamp: Stamp, last: u64, after: Document) {
    && Newest(e.history, after.history, o.maxHistory)
    && Newest(e.interventions, after.interventions, o.maxInterventions)
    && Newest(e.fences, after.fences, o.maxFences)
    && Newest(e.attempts, after.attempts, o.maxAttempts)
    && Newest(e.provenance, after.provenance, o.maxProvenance)
    && Newest(e.revalidations, after.revalidations, o.maxAttempts)
    && after == e.(history := after.history, interventions := after.interventions, fences := after.fences,
                   attempts := after.attempts, provenance := after.provenance, revalidations := after.revalidations,
                   lastSequence := last, authority := stamp.generation,
                   mutations := if e.mutations == MAX_U64 then 0 else e.mutations + 1)
  }

  lemma {:induction false} CommittedExact(d: Document, o: Options, kind: u16, body: seq<u8>, row: Row, stamp: Stamp,
                                          last: u64)
    requires kind != 0 && kind != KIND_COUNT && DecodeBody(kind, body) == Accepted(row)
    ensures Meaning(Frame(kind, body)) == Some((kind, row))
    ensures Became(Apply(d, kind, row), o, stamp, last, Committed(d, o, Frame(kind, body), stamp, last))
  {
    hide DecodeBody, Apply, Prune;
    UnframeFrame(kind, body);
    var e := Apply(d, kind, row);
    PruneKeepsNewest(e.(lastSequence := last, authority := stamp.generation, mutations := Bumped(e.mutations)), o);
  }

  /** The journal may be written and has room for the three records of a commit. */
  predicate Fits(journal: seq<u8>, o: Options, body: seq<u8>) {
    !o.readOnly && |journal| + 218 + |body| <= 0x4_0000_0000
  }

  lemma {:induction false} PlanExact(d: Document, o: Options, next: u64, journal: seq<u8>, kind: u16, body: seq<u8>,
                                     stamp: Stamp)
    ensures var w := Plan(d, next, |journal|, o, kind, body, stamp);
            && (w.Writing? <==> Committable(d, o, kind, body))
            && (w.Writing? ==>
                  && w.framed == Frame(kind, body) && Meaning(w.framed).Some? && |w.records| == 3
                  && (w.count == 3 <==> Fits(journal, o, body))
                  && (w.count == 3 ==> |J.Flat(w.records[..w.count])| == 218 + |body|))
  {
    hide DecodeBody, J.Bytes, IntentBody, CommitBody, Frame, Meaning;
    CheckExact(d, o, kind, body);
    if Committable(d, o, kind, body) {
      var framed := Frame(kind, body);
      FrameLength(kind, body);
      CheckedMeans(d, o, kind, body);
      TakenExact(o, |journal|, kind, framed, stamp, next);
      D.WrittenSteps(o, |journal|, Transaction(kind, framed, stamp, next));
      PlanWritten(d, next, |journal|, o, kind, body, stamp);
    }
    hide Plan, Transaction, Written;
  }

  lemma {:induction false} ActMutates(s: System, o: Options, kind: u16, body: seq<u8>, stamp: Stamp)
    requires s.process.Up?
    ensures var d, next := s.process.document, s.process.next;
            var w := Plan(d, next, |s.disk.journal|, o, kind, body, stamp);
            Act(s, Mutate(kind, body, stamp), o) == if w.Nothing? then s else Mutated(s, d, next, w, o, stamp)
  {
    hide Plan, Mutated;
  }

  /** A commit in full. It is acknowledged exactly when the mutation is committable, the
      journal may be written and has room for all three records; then they are on disk and
      the row is applied, under the newest-rows bounds and the stamp. Otherwise the document
      and the committed payloads are as before. */
  lemma {:induction false} CommitExact(s: System, o: Options, kind: u16, body: seq<u8>, stamp: Stamp)
    requires s.process.Up?
    ensures var d, t := s.process.document, Act(s, Mutate(kind, body, stamp), o);
            && t.process.Up? && t.disk.snapshot == s.disk.snapshot
            && if Committable(d, o, kind, body) && Fits(s.disk.journal, o, body) then
                 && t.committed == s.committed + [Commit(Frame(kind, body), true)]
                 && |t.disk.journal| == |s.disk.journal| + 218 + |body|
                 && t.disk.journal[..|s.disk.journal|] == s.disk.journal
                 && Became(Apply(d, kind, DecodeBody(kind, body).row), o, stamp, Wrapped(s.process.next + 2),
                           t.process.document)
               else
                 t.committed == s.committed && t.process.document == d
                 && (!Committable(d, o, kind, body) ==> t == s)
  {
    var d := s.process.document;
    PlanExact(d, o, s.process.next, s.disk.journal, kind, body, stamp);
    if Committable(d, o, kind, body) {
      CommittedExact(d, o, kind, body, DecodeBody(kind, body).row, stamp, Wrapped(s.process.next + 2));
    }
    ActMutates(s, o, kind, body, stamp);
    hide Act, DecodeBody, Apply, Plan, Became, Frame, Meaning, J.Flat, Fits, Committed;
  }

  lemma {:induction false} FrameLength(kind: u16, body: seq<u8>)
    ensures |Frame(kind, body)| == |body| + 2
  {
  }
}
