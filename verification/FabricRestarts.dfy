/** The coordinator over its durable document: opens, crashes inside an open, fences,
    epoch advances and restarts (src/fabric/fabric.cpp). The document carries over a
    crash as the prefix of the mutations already committed. */
module FabricRestarts {
  import opened Words
  import opened Model
  import opened Layout
  import opened StoreCodec
  import opened Document
  import H = Hysteresis
  import R = HysteresisRuns
  import F = Fabric
  import T = Topology
  import P = Policy
  import V = Evaluator
  import W = Evaluation
  import A = Arrival

  type Id = nat

  // ---- Rows and the values they hold ----------------------------------------

  function StateOfCode(n: nat): CongestionState {
    if n == 1 then Clear else if n == 2 then Watch else if n == 3 then Congested else if n == 4 then Severe
    else if n == 5 then Recovering else if n == 6 then Stale else if n == 7 then Conflict else Unknown
  }

  function CodeOfState(s: CongestionState): (n: nat)
    ensures StateOfCode(n) == s && n <= 7
  {
    match s
    case Unknown => 0
    case Clear => 1
    case Watch => 2
    case Congested => 3
    case Severe => 4
    case Recovering => 5
    case Stale => 6
    case Conflict => 7
  }

  /** `demote_after_recovery` on a stored domain, and the other fields a restart resets. */
  function Demoted(d: Domain): Domain {
    var s := StateOfCode(d.state);
    var t := if !Authoritative(s) then s else if d.lastAuthoritative == NO_TICK then Unknown else Stale;
    d.(state := if Authoritative(s) then CodeOfState(t) else d.state, candidate := 0, streak := 0,
        requiresRevalidation := true)
  }

  function FencedIn(rows: seq<Row>): set<(Id, Id)> {
    set r | r in rows :: (N(r, 2), N(r, 3))
  }

  lemma {:induction false} FencedMore(rows: seq<Row>, row: Row)
    ensures FencedIn(rows + [row]) == FencedIn(rows) + {(N(row, 2), N(row, 3))}
  {
    var f := (r: Row) => (N(r, 2), N(r, 3));
    forall x | x in FencedIn(rows)
      ensures x in FencedIn(rows + [row])
    {
      var r :| r in rows && f(r) == x;
      assert r in rows + [row];
    }
    assert row in rows + [row];
  }

  // ---- Opening --------------------------------------------------------------

  function OpenEpoch(d: Document): Id {
    if d.epoch != 0 then d.epoch + 1 else 1
  }

  function OpenEpochRow(d: Document, boot: Id): Row {
    [Num(OpenEpoch(d)), Num(boot), Num(if d.epoch != 0 then d.bootCounter + 1 else 1)]
  }

  /** The domain row an open writes back: demoted, flagged, of the new epoch and its authority. */
  function DemotedRow(d: Document, row: Row): Row {
    var e := Demoted(DomainOf(row));
    DomainRow(e.(epoch := OpenEpoch(d), authorityGeneration := OpenEpoch(d)))
  }

  function DomainWrites(d: Document, rows: seq<Row>, notes: seq<Row>): seq<Entry>
    requires |notes| == |rows|
  {
    if rows == [] then []
    else [Entry(DOMAIN_STATE, DemotedRow(d, rows[0])), Entry(REVALIDATION, notes[0])] + DomainWrites(d, rows[1..],
        notes[1..])
  }

  /** What an open commits, in order: the policy when none was restored, the epoch, then
      each demoted domain with its revalidation record. */
  function OpenWrites(d: Document, boot: Id, policy: Row, notes: seq<Row>): seq<Entry>
    requires |notes| == |d.domains|
  {
    (if d.policy.None? then [Entry(POLICY_SET, policy)] else [])
    + [Entry(EPOCH_ADVANCE, OpenEpochRow(d, boot))] + DomainWrites(d, d.domains, notes)
  }

  function RestoredDomains(rows: seq<Row>): map<Id, Domain> {
    if rows == [] then map[] else RestoredDomains(rows[..|rows| - 1])[Key(rows[|rows| - 1]) := Demoted(DomainOf(rows[|rows| - 1]))]
  }

  function Sev(n: nat): Severity {
    if n <= 3 then n else SEVERE
  }

  /** The machine a restored domain starts from. */
  function MachineOf(d: Domain): H.Machine {
    H.Machine(StateOfCode(d.state), StateOfCode(d.candidate), Clip(d.streak, 0xFFFF_FFFF),
              Clip(d.lastChange, MAX_U64), Clip(d.lastAuthoritative, MAX_U64), Clip(d.lastEvaluated, MAX_U64),
              Sev(d.committedSeverity), Clip(d.transitions, MAX_U64), d.requiresRevalidation)
  }

  /** The coordinator after an open that ran to its end; `policy` is the built-in one, in
      force when none was stored. */
  function Opened(d: Document, policy: Row): F.State {
    var restored := RestoredDomains(d.domains);
    F.State(OpenEpoch(d), OpenEpoch(d), PolicyOf(if d.policy.Some? then d.policy.value else policy),
            RestoredTopology(d), map[], FencedIn(d.fences), map[],
            map k | k in restored :: MachineOf(restored[k]), map[], false)
  }

  /** The stored topology, if an index can be built over it. */
  function RestoredTopology(d: Document): Option<T.Snapshot> {
    if d.topology.Some? && T.Accepted(TopologyOf(d.topology.value)) then Some(TopologyOf(d.topology.value)) else None
  }

  // ---- The plant ------------------------------------------------------------

  datatype Process = Down | Up(state: F.State)

  /** The durable document, the process if one runs, every fence and every epoch that was
      acknowledged to a caller. */
  datatype Plant = Plant(document: Document, process: Process, fenced: set<(Id, Id)>, epochs: seq<Id>)

  datatype Event =
    | OpenAll(boot: Id, policy: Row, notes: seq<Row>)
    | OpenSome(boot: Id, policy: Row, notes: seq<Row>, done: nat)
    | FenceAll(publisher: Id, boot: Id, row: Row)
    | FenceSome(row: Row, done: nat)
    | AdvanceAll(boot: Id, records: seq<Row>, domainRows: seq<Row>)
    | AdvanceSome(boot: Id, records: seq<Row>, domainRows: seq<Row>, done: nat)
    | Live(event: F.Event, writes: seq<Entry>)
    | Kill

  function First(es: seq<Entry>, n: nat): seq<Entry> {
    es[..if n <= |es| then n else |es|]
  }

  /** What an epoch advance commits, in order. */
  function AdvanceWrites(s: F.State, counter: nat, boot: Id, records: seq<Row>, domainRows: seq<Row>): seq<Entry> {
    [Entry(EPOCH_ADVANCE, [Num(s.epoch + 1), Num(boot), Num(counter)])]
    + Tagged(FENCE, records) + Tagged(DOMAIN_STATE, domainRows)
  }

  ghost function Act(p: Plant, e: Event, o: F.Options): Plant {
    match (p.process, e)
    case (Down, OpenAll(boot, policy, notes)) =>
      if |notes| != |p.document.domains| then p
      else
        Plant(Fold(p.document, OpenWrites(p.document, boot, policy, notes)), Up(Opened(p.document, policy)),
              p.fenced, p.epochs + [OpenEpoch(p.document)])
    case (Down, OpenSome(boot, policy, notes, done)) =>
      if |notes| != |p.document.domains| then p
      else p.(document := Fold(p.document, First(OpenWrites(p.document, boot, policy, notes), done)))
    case (Up(s), FenceAll(publisher, boot, row)) =>
      if s.closed || publisher == 0 || boot == 0 then p
      else
        Plant(Apply(p.document, FENCE, row), Up(F.FencedOne(s, publisher, boot)), p.fenced + {(publisher, boot)},
            p.epochs)
    case (Up(s), FenceSome(row, done)) =>
      p.(document := if done == 0 then p.document else Apply(p.document, FENCE, row), process := Down)
    case (Up(s), AdvanceAll(boot, records, domainRows)) =>
      if s.closed then p
      else
        var t := F.Advanced(s);
        Plant(Fold(p.document, AdvanceWrites(s, p.document.bootCounter, boot, records, domainRows)), Up(t),
              p.fenced + FencedIn(records), p.epochs + [t.epoch])
    case (Up(s), AdvanceSome(boot, records, domainRows, done)) =>
      p.(document := Fold(p.document, First(AdvanceWrites(s, p.document.bootCounter, boot, records, domainRows), done)),
         process := Down)
    case (Up(s), Live(event, writes)) =>
      p.(document := Fold(p.document, writes), process := Up(F.Next(s, event, o)))
    case (_, Kill) => p.(process := Down)
    case _ => p
  }

  /** Identities of fence records name one incarnation, as their contents are hashed into
      them; and the other writes of a step do not touch the epoch or the fences. */
  predicate Allowed(p: Plant, e: Event) {
    match e
    case FenceAll(publisher, boot, row) =>
      && N(row, 2) == publisher && N(row, 3) == boot
      && (HasKey(p.document.fences, Key(row)) ==> (publisher, boot) in FencedIn(p.document.fences))
    case AdvanceAll(_, records, _) =>
      && p.process.Up? && FencedIn(records) == F.Incarnations(p.process.state.publishers)
      && (forall r | r in records && HasKey(p.document.fences, Key(r)) :: (N(r, 2), N(r,
          3)) in FencedIn(p.document.fences))
      && KeysDistinct(records)
    case Live(event, writes) =>
      && !event.Fence? && !event.AdvanceEpoch? && forall w | w in writes :: w.kind != EPOCH_ADVANCE && w.kind != FENCE
    case _ => true
  }

  ghost function Run(es: seq<Event>, o: F.Options): Plant {
    if es == [] then Plant(EMPTY, Down, {}, []) else Act(Run(es[..|es| - 1], o), es[|es| - 1], o)
  }

  ghost predicate AllowedRun(es: seq<Event>, o: F.Options) {
    es == [] || (AllowedRun(es[..|es| - 1], o) && Allowed(Run(es[..|es| - 1], o), es[|es| - 1]))
  }

  // ---- The invariant --------------------------------------------------------

  predicate Ascending(es: seq<Id>) {
    forall i, j | 0 <= i < j < |es| :: es[i] < es[j]
  }

  /** Acknowledged fences are in the document; a running coordinator holds all of the
      document's; acknowledged epochs rise and none is past the document's. */
  predicate Inv(p: Plant) {
    && p.fenced <= FencedIn(p.document.fences)
    && Ascending(p.epochs) && (forall e | e in p.epochs :: e <= p.document.epoch)
    && (p.process.Up? ==>
          && FencedIn(p.document.fences) <= p.process.state.fences
          && p.process.state.epoch == p.document.epoch)
  }

  lemma {:induction false} ApplyFences(d: Document, kind: u16, row: Row)
    ensures FencedIn(d.fences) <= FencedIn(Apply(d, kind, row).fences)
    ensures kind != FENCE ==> Apply(d, kind, row).fences == d.fences
    ensures kind == FENCE ==> FencedIn(Apply(d, kind, row).fences) <= FencedIn(d.fences) + {(N(row, 2), N(row, 3))}
    ensures kind == FENCE && !HasKey(d.fences, Key(row)) ==> (N(row, 2), N(row, 3)) in FencedIn(Apply(d, kind,
        row).fences)
    ensures Apply(d, kind, row).epoch == if kind == EPOCH_ADVANCE then N(row, 0) else d.epoch
  {
    if kind == FENCE {
      FencedMore(d.fences, row);
    }
  }

  /** No entry takes the epoch back, and none beyond `top`. */
  predicate EpochsRise(es: seq<Entry>, low: Id, top: Id) {
    forall e | e in es && e.kind == EPOCH_ADVANCE :: low <= N(e.row, 0) <= top
  }

  lemma {:induction false} FoldFences(d: Document, es: seq<Entry>, top: Id)
    requires d.epoch <= top && EpochsRise(es, top, top)
    ensures var f := Fold(d, es);
            && FencedIn(d.fences) <= FencedIn(f.fences) && d.epoch <= f.epoch <= top
            && (forall x | x in FencedIn(f.fences) ::
                  || x in FencedIn(d.fences)
                  || exists e :: e in es && e.kind == FENCE && x == (N(e.row, 2), N(e.row, 3)))
            && ((exists e :: e in es && e.kind == EPOCH_ADVANCE) ==> f.epoch == top)
            && ((forall e | e in es :: e.kind != EPOCH_ADVANCE) ==> f.epoch == d.epoch)
    decreases |es|
  {
    hide Apply, FencedIn;
    if es != [] {
      var e := es[0];
      assert e in es && forall x | x in es[1..] :: x in es;
      assert es == [e] + es[1..];
      ApplyFences(d, e.kind, e.row);
      FoldFences(Apply(d, e.kind, e.row), es[1..], top);
    }
  }

  lemma {:induction false} DomainWritesKinds(d: Document, rows: seq<Row>, notes: seq<Row>)
    requires |notes| == |rows|
    ensures forall e | e in DomainWrites(d, rows, notes) :: e.kind == DOMAIN_STATE || e.kind == REVALIDATION
    decreases |rows|
  {
    hide DemotedRow;
    if rows != [] {
      DomainWritesKinds(d, rows[1..], notes[1..]);
    }
  }

  lemma {:induction false} OpenWritesKinds(d: Document, boot: Id, policy: Row, notes: seq<Row>)
    requires |notes| == |d.domains|
    ensures var es := OpenWrites(d, boot, policy, notes);
            && (forall e | e in es :: e.kind != FENCE)
            && EpochsRise(es, OpenEpoch(d), OpenEpoch(d)) && (exists e :: e in es && e.kind == EPOCH_ADVANCE)
  {
    DomainWritesKinds(d, d.domains, notes);
    var es := OpenWrites(d, boot, policy, notes);
    var front := if d.policy.None? then [Entry(POLICY_SET, policy)] else [];
    assert es[|front|] == Entry(EPOCH_ADVANCE, OpenEpochRow(d, boot));
    assert es[|front|] in es;
    assert N(OpenEpochRow(d, boot), 0) == OpenEpoch(d);
  }

  lemma {:induction false} FirstKinds(es: seq<Entry>, n: nat, low: Id, top: Id)
    requires EpochsRise(es, low, top)
    ensures EpochsRise(First(es, n), low, top) && forall e | e in First(es, n) :: e in es
  {
  }

  lemma {:induction false} AscendingMore(es: seq<Id>, e: Id)
    requires Ascending(es) && forall x | x in es :: x < e
    ensures Ascending(es + [e])
  {
    assert forall i | 0 <= i < |es| :: es[i] in es;
  }

  lemma {:induction false} OpenKeeps(p: Plant, e: Event, o: F.Options)
    requires Inv(p) && p.process.Down? && (e.OpenAll? || e.OpenSome?)
    ensures Inv(Act(p, e, o))
  {
    hide Fold, FencedIn, OpenWrites, Ascending, RestoredDomains;
    var d := p.document;
    if |e.notes| == |d.domains| {
      var es := OpenWrites(d, e.boot, e.policy, e.notes);
      OpenWritesKinds(d, e.boot, e.policy, e.notes);
      if e.OpenAll? {
        FoldFences(d, es, OpenEpoch(d));
        AscendingMore(p.epochs, OpenEpoch(d));
      } else {
        FirstKinds(es, e.done, OpenEpoch(d), OpenEpoch(d));
        FoldFences(d, First(es, e.done), OpenEpoch(d));
      }
    }
  }

  lemma {:induction false} FenceAllKeeps(p: Plant, e: Event, o: F.Options)
    requires Inv(p) && Allowed(p, e) && p.process.Up? && (e.FenceAll? || e.FenceSome?)
    ensures Inv(Act(p, e, o))
  {
    hide Apply, FencedIn, Ascending, HasKey;
    ApplyFences(p.document, FENCE, e.row);
  }

  lemma {:induction false} RecordsAllIn(d: Document, records: seq<Row>)
    requires KeysDistinct(records)
    requires forall r | r in records && HasKey(d.fences, Key(r)) :: (N(r, 2), N(r, 3)) in FencedIn(d.fences)
    ensures FencedIn(records) <= FencedIn(Fold(d, Tagged(FENCE, records)).fences)
    decreases |records|
  {
    if records != [] {
      hide Apply, FencedIn;
      var r, rest := records[0], records[1..];
      assert records == [r] + rest && r in records;
      ApplyFences(d, FENCE, r);
      var e := Apply(d, FENCE, r);
      assert Tagged(FENCE, records)[1..] == Tagged(FENCE, rest);
      forall x | x in rest && HasKey(e.fences, Key(x))
        ensures (N(x, 2), N(x, 3)) in FencedIn(e.fences)
      {
        assert x in records;
        FenceKeys(d, r, x);
        var k :| 0 <= k < |rest| && rest[k] == x;
        assert records[k + 1] == x;
      }
      RecordsAllIn(e, rest);
      FoldKeepsFences(e, Tagged(FENCE, rest));
      FencedSplit(r, rest);
    }
  }

  lemma {:induction false} FencedSplit(r: Row, rest: seq<Row>)
    ensures FencedIn([r] + rest) == {(N(r, 2), N(r, 3))} + FencedIn(rest)
  {
    forall x | x in FencedIn(rest)
      ensures x in FencedIn([r] + rest)
    {
      var y :| y in rest && (N(y, 2), N(y, 3)) == x;
      assert y in [r] + rest;
    }
    assert r in [r] + rest;
  }

  lemma {:induction false} FenceKeys(d: Document, r: Row, x: Row)
    requires Key(x) != Key(r)
    ensures HasKey(Apply(d, FENCE, r).fences, Key(x)) ==> HasKey(d.fences, Key(x))
  {
    var rows := Apply(d, FENCE, r).fences;
    if HasKey(rows, Key(x)) {
      var i :| 0 <= i < |rows| && Key(rows[i]) == Key(x);
      assert rows == d.fences || rows == d.fences + [r];
      assert i < |d.fences| && d.fences[i] == rows[i];
    }
  }

  lemma {:induction false} FoldKeepsFences(d: Document, es: seq<Entry>)
    ensures FencedIn(d.fences) <= FencedIn(Fold(d, es).fences)
    decreases |es|
  {
    hide Apply, FencedIn;
    if es != [] {
      ApplyFences(d, es[0].kind, es[0].row);
      FoldKeepsFences(Apply(d, es[0].kind, es[0].row), es[1..]);
    }
  }

  lemma {:induction false} AdvanceKinds(s: F.State, counter: nat, boot: Id, records: seq<Row>, domainRows: seq<Row>)
    ensures var es := AdvanceWrites(s, counter, boot, records, domainRows);
            && EpochsRise(es, s.epoch + 1, s.epoch + 1) && (exists e :: e in es && e.kind == EPOCH_ADVANCE)
            && (forall e | e in es && e.kind == FENCE :: (N(e.row, 2), N(e.row, 3)) in FencedIn(records))
            && es[1..] == Tagged(FENCE, records) + Tagged(DOMAIN_STATE, domainRows)
  {
    var es := AdvanceWrites(s, counter, boot, records, domainRows);
    var row := [Num(s.epoch + 1), Num(boot), Num(counter)];
    assert es[0] == Entry(EPOCH_ADVANCE, row) && es[0] in es && N(row, 0) == s.epoch + 1;
    forall e | e in es && e.kind == FENCE
      ensures (N(e.row, 2), N(e.row, 3)) in FencedIn(records)
    {
      assert e in Tagged(FENCE, records);
    }
  }

  lemma {:induction false} AdvanceAllKeeps(p: Plant, e: Event, o: F.Options)
    requires Inv(p) && Allowed(p, e) && p.process.Up? && e.AdvanceAll?
    ensures Inv(Act(p, e, o))
  {
    hide Apply, FencedIn, Ascending, HasKey, F.AllAfter, AdvanceWrites, KeysDistinct;
    var s := p.process.state;
    if !s.closed {
      var es := AdvanceWrites(s, p.document.bootCounter, e.boot, e.records, e.domainRows);
      AdvanceKinds(s, p.document.bootCounter, e.boot, e.records, e.domainRows);
      FoldFences(p.document, es, s.epoch + 1);
      AdvanceRecorded(p.document, s, e.boot, e.records, e.domainRows);
      AscendingMore(p.epochs, s.epoch + 1);
    }
  }

  /** Every fence record of the advance ends up in the document. */
  lemma {:induction false} AdvanceRecorded(d: Document, s: F.State, boot: Id, records: seq<Row>, domainRows: seq<Row>)
    requires KeysDistinct(records)
    requires forall r | r in records && HasKey(d.fences, Key(r)) :: (N(r, 2), N(r, 3)) in FencedIn(d.fences)
    ensures FencedIn(records) <= FencedIn(Fold(d, AdvanceWrites(s, d.bootCounter, boot, records, domainRows)).fences)
  {
    hide FencedIn, HasKey, KeysDistinct;
    var es := AdvanceWrites(s, d.bootCounter, boot, records, domainRows);
    AdvanceKinds(s, d.bootCounter, boot, records, domainRows);
    var e := Apply(d, es[0].kind, es[0].row);
    ApplyFences(d, es[0].kind, es[0].row);
    FoldConcat(e, Tagged(FENCE, records), Tagged(DOMAIN_STATE, domainRows));
    RecordsAllIn(e, records);
    FoldKeepsFences(Fold(e, Tagged(FENCE, records)), Tagged(DOMAIN_STATE, domainRows));
  }

  lemma {:induction false} AdvanceSomeKeeps(p: Plant, e: Event, o: F.Options)
    requires Inv(p) && p.process.Up? && e.AdvanceSome?
    ensures Inv(Act(p, e, o))
  {
    hide Fold, FencedIn, Ascending, AdvanceWrites;
    var s := p.process.state;
    var es := AdvanceWrites(s, p.document.bootCounter, e.boot, e.records, e.domainRows);
    AdvanceKinds(s, p.document.bootCounter, e.boot, e.records, e.domainRows);
    FirstKinds(es, e.done, s.epoch + 1, s.epoch + 1);
    FoldFences(p.document, First(es, e.done), s.epoch + 1);
  }

  lemma {:induction false} LiveKeeps(p: Plant, e: Event, o: F.Options)
    requires Inv(p) && Allowed(p, e) && p.process.Up? && e.Live?
    ensures Inv(Act(p, e, o))
  {
    hide Fold, FencedIn, Ascending, F.Next;
    FoldFences(p.document, e.writes, p.document.epoch);
    LiveFrame(p.process.state, e.event, o);
  }

  lemma {:induction false} LiveFrame(s: F.State, e: F.Event, o: F.Options)
    requires !e.Fence? && !e.AdvanceEpoch?
    ensures F.Next(s, e, o).fences == s.fences && F.Next(s, e, o).epoch == s.epoch
  {
    hide F.AllAfter, F.AnswerTo, F.Bound, F.Retained, F.PlanAt, F.PolicyAnswer, T.Accepted;
    if e.Ingest? {
      IngestFrame(s, o, e.samples);
    }
  }

  lemma {:induction false} IngestFrame(s: F.State, o: F.Options, xs: seq<F.Sample>)
    ensures F.Ingested(s, o, xs).0.fences == s.fences && F.Ingested(s, o, xs).0.epoch == s.epoch
    decreases |xs|
  {
    hide F.FateOf;
    if xs != [] {
      IngestFrame(s, o, xs[..|xs| - 1]);
    }
  }

  lemma {:induction false} StepKeeps(p: Plant, e: Event, o: F.Options)
    requires Inv(p) && Allowed(p, e)
    ensures Inv(Act(p, e, o))
  {
    hide Inv, Allowed, Fold, Apply, OpenWrites, AdvanceWrites, FencedIn, Opened, F.Next, F.Advanced, F.FencedOne;
    match (p.process, e) {
      case (Down, OpenAll(_, _, _)) => OpenKeeps(p, e, o);
      case (Down, OpenSome(_, _, _, _)) => OpenKeeps(p, e, o);
      case (Up(_), FenceAll(_, _, _)) => FenceAllKeeps(p, e, o);
      case (Up(_), FenceSome(_, _)) => FenceAllKeeps(p, e, o);
      case (Up(_), AdvanceAll(_, _, _)) => AdvanceAllKeeps(p, e, o);
      case (Up(_), AdvanceSome(_, _, _, _)) => AdvanceSomeKeeps(p, e, o);
      case (Up(_), Live(_, _)) => LiveKeeps(p, e, o);
      case (_, Kill) => KillKeeps(p);
      case _ =>
    }
  }

  lemma {:induction false} KillKeeps(p: Plant)
    requires Inv(p)
    ensures Inv(p.(process := Down))
  {
  }

  lemma {:induction false} RunKeeps(es: seq<Event>, o: F.Options)
    requires AllowedRun(es, o)
    ensures Inv(Run(es, o))
    decreases |es|
  {
    hide Act, Allowed;
    if es != [] {
      hide Inv;
      RunKeeps(es[..|es| - 1], o);
      StepKeeps(Run(es[..|es| - 1], o), es[|es| - 1], o);
    }
  }

  // ---- The main results -----------------------------------------------------

  /** Across any durable restarts, crashes inside an open included: the epochs announced
      to callers strictly increase, and an acknowledged fence refuses its incarnation in
      whatever process runs. */
  lemma {:induction false} RestartsAreFenced(es: seq<Event>, o: F.Options, p: Id, b: Id, x: F.Sample)
    requires AllowedRun(es, o)
    ensures var r := Run(es, o);
            && Ascending(r.epochs)
            && ((p, b) in r.fenced && r.process.Up? ==>
                  && F.RegisterAnswer(r.process.state, o, p, b).Refused?
                  && (F.From(x, p, b) ==> !F.FateOf(r.process.state, o, x).Accepted?))
  {
    hide Act, Allowed, FencedIn;
    RunKeeps(es, o);
  }

  lemma {:induction false} RestoredAreDemoted(rows: seq<Row>)
    ensures forall k | k in RestoredDomains(rows) ::
              !Authoritative(StateOfCode(RestoredDomains(rows)[k].state)) && RestoredDomains(rows)[k].requiresRevalidation
    ensures forall r | r in rows :: Key(r) in RestoredDomains(rows)
    decreases |rows|
  {
    if rows != [] {
      var front, r := rows[..|rows| - 1], rows[|rows| - 1];
      assert rows == front + [r];
      RestoredAreDemoted(front);
    }
  }

  /** Whatever document an open finds, one left by a crash inside an earlier open included,
      every domain it restores is non-authoritative and flagged. */
  lemma {:induction false} OpenDemotesAll(d: Document, policy: Row)
    ensures var s := Opened(d, policy);
            && (forall r | r in d.domains :: Key(r) in s.domains)
            && (forall k | k in s.domains :: !Authoritative(s.domains[k].state) && s.domains[k].requiresRevalidation)
            && s.epoch > d.epoch && s.evidence == map[] && s.intents == map[]
  {
    hide MachineOf, RestoredDomains, Demoted;
    RestoredAreDemoted(d.domains);
    forall k | k in RestoredDomains(d.domains)
      ensures !Authoritative(MachineOf(RestoredDomains(d.domains)[k]).state)
      ensures MachineOf(RestoredDomains(d.domains)[k]).requiresRevalidation
    {
      MachineShows(RestoredDomains(d.domains)[k]);
    }
  }

  lemma {:induction false} MachineShows(d: Domain)
    ensures MachineOf(d).state == StateOfCode(d.state) && MachineOf(d).requiresRevalidation == d.requiresRevalidation
  {
  }

  /** What a row of the document holds is demoted exactly as the run of its machine says. */
  lemma {:induction false} DemotionIsRestart(d: Domain, rules: H.Rules)
    requires d.state <= 7
    ensures MachineOf(Demoted(d)) == R.After(MachineOf(d), R.Restarted, rules)
  {
  }

  /** The outcome of event `i` of a run is an authoritative one for the domain. */
  ghost predicate AuthoritativeAt(s: F.State, es: seq<F.Event>, o: F.Options, domain: Id, i: nat)
    requires i < |es|
  {
    && es[i].Evaluate? && es[i].domain == domain
    && var a := F.AnswerTo(F.Run(s, es[..i], o), domain, es[i].batch, es[i].now);
    && a.Some? && a.value.authoritative
  }

  /** The domain is known and flagged. */
  predicate Flagged(s: F.State, domain: Id) {
    domain in s.domains && s.domains[domain].requiresRevalidation
  }

  /** The samples of an evaluation that its context lets in, and the queues they name, make
      its proposal; no other sample does. */
  ghost predicate MadeOf(u: F.State, q: W.Request, a: W.Answer, own: seq<V.Sample>) {
    && (forall x :: x in own <==> x in q.samples && x.epoch == u.epoch) && own != []
    && var scope := W.ScopeIn(u.topology, q, u.policy);
    && scope.Scope?
    && var c := W.ContextIn(u.topology, q, u.policy, scope.resources);
    && c.epoch == u.epoch != 0
    && a.proposal == V.Proposal(c, own, W.Queues(own), F.MachineAt(u, q.domain).lastAuthoritative != NO_TICK)
  }

  /** After a restart, from whatever document, the first authoritative outcome of a restored
      domain is a committed transition of a machine still flagged. Its proposal is the one
      made by the samples of the new epoch alone, of which there are some; and when the
      evaluation reads the window, all of its samples are of that epoch and of
      incarnations that are not fenced. */
  lemma {:induction false} FirstAuthorityIsCommitted(d: Document, policy: Row, es: seq<F.Event>, o: F.Options,
                                                     domain: Id, i: nat)
    requires exists r :: r in d.domains && Key(r) == domain
    requires i < |es| && AuthoritativeAt(Opened(d, policy), es, o, domain, i)
    requires forall j | 0 <= j < i :: !AuthoritativeAt(Opened(d, policy), es, o, domain, j)
    ensures var u := F.Run(Opened(d, policy), es[..i], o);
            var q := F.RequestFor(u, domain, es[i].batch, es[i].now);
            var a := F.AnswerTo(u, domain, es[i].batch, es[i].now).value;
            && R.Commits(F.MachineAt(u, domain), R.Evaluated(a.proposal, es[i].now), H.RulesOf(u.policy))
            && a.machine.lastChange == es[i].now
            && u.epoch >= OpenEpoch(d) > d.epoch
            && MadeOf(u, q, a, A.OfEpoch(q.samples, u.epoch))
            && (es[i].batch.None? ==>
                  forall x | x in q.samples :: x.epoch == u.epoch && (x.publisher, x.boot) !in u.fences)
  {
    hide F.Run, F.AnswerTo, Opened, F.Inv, F.Monotone, MadeOf, R.Commits, F.RequestFor, OpenEpoch;
    var s := Opened(d, policy);
    var u := F.Run(s, es[..i], o);
    OpenDemotesAll(d, policy);
    OpenStarts(d, policy, o);
    F.RunKeeps(s, es[..i], o);
    MonotoneEpoch(s, u);
    FlagStays(s, es, o, domain, i);
    F.RevalidatedByCommit(u, domain, es[i].batch, es[i].now);
    MadeOfOwn(u, domain, es[i].batch, es[i].now);
    if es[i].batch.None? {
      WindowIsCurrent(u, o, domain, es[i].now);
    }
  }

  lemma {:induction false} OpenStarts(d: Document, policy: Row, o: F.Options)
    ensures F.Started(Opened(d, policy), o) && Opened(d, policy).epoch == OpenEpoch(d) > d.epoch
  {
    hide RestoredDomains, MachineOf, FencedIn, PolicyOf, RestoredTopology;
  }

  lemma {:induction false} MonotoneEpoch(s: F.State, u: F.State)
    requires F.Monotone(s, u)
    ensures s.epoch <= u.epoch
  {
  }

  lemma {:induction false} WindowIsCurrent(u: F.State, o: F.Options, domain: Id, now: Tick)
    requires F.Inv(u, o)
    ensures forall x | x in F.RequestFor(u, domain, None, now).samples ::
              x.epoch == u.epoch && (x.publisher, x.boot) !in u.fences
  {
    hide F.Inv, F.Collected;
    F.CollectedIsCurrent(u, o, domain);
  }

  /** An authoritative answer is made of the samples of the coordinator's epoch. */
  lemma {:induction false} MadeOfOwn(u: F.State, domain: Id, batch: Option<seq<V.Sample>>, now: Tick)
    requires u.epoch != 0
    requires var a := F.AnswerTo(u, domain, batch, now); a.Some? && a.value.proposal.hasValue
    ensures var q := F.RequestFor(u, domain, batch, now);
            MadeOf(u, q, F.AnswerTo(u, domain, batch, now).value, A.OfEpoch(q.samples, u.epoch))
  {
    hide W.ScopeIn, V.Proposal, W.Queues, H.Step, F.RequestFor, A.OfEpoch, V.Admitted;
    F.RequestShape(u, domain, batch, now);
    var q := F.RequestFor(u, domain, batch, now);
    var c := W.ContextIn(u.topology, q, u.policy, W.ScopeIn(u.topology, q, u.policy).resources);
    var own, seen := A.OfEpoch(q.samples, u.epoch), F.MachineAt(u, domain).lastAuthoritative != NO_TICK;
    A.OtherEpochsIgnored(c, q.samples, seen);
    A.ValueNeedsSample(c, own, W.Queues(own), seen);
    V.AdmittedPasses(c, own);
    assert V.Admitted(c, own)[0] in V.Admitted(c, own);
  }

  /** The flag stays until an authoritative outcome. */
  lemma {:induction false} FlagStays(s: F.State, es: seq<F.Event>, o: F.Options, domain: Id, n: nat)
    requires n <= |es| && Flagged(s, domain)
    requires forall j | 0 <= j < n :: !AuthoritativeAt(s, es, o, domain, j)
    ensures Flagged(F.Run(s, es[..n], o), domain)
    decreases n
  {
    hide F.Run, Flagged, F.AnswerTo;
    if n > 0 {
      FlagStays(s, es, o, domain, n - 1);
      assert !AuthoritativeAt(s, es, o, domain, n - 1);
      FlagStep(F.Run(s, es[..n - 1], o), es[n - 1], o, domain);
      RunNext(s, es, o, n - 1);
    } else {
      RunNone(s, es, o);
    }
  }

  lemma {:induction false} RunNext(s: F.State, es: seq<F.Event>, o: F.Options, n: nat)
    requires n < |es|
    ensures F.Run(s, es[..n + 1], o) == F.Next(F.Run(s, es[..n], o), es[n], o)
  {
    hide F.Next;
    assert es[..n + 1][..n] == es[..n] && es[..n + 1][n] == es[n];
  }

  lemma {:induction false} RunNone(s: F.State, es: seq<F.Event>, o: F.Options)
    ensures F.Run(s, es[..0], o) == s
  {
    hide F.Next;
  }

  /** Only an authoritative evaluation of the domain clears its flag. */
  lemma {:induction false} FlagStep(t: F.State, e: F.Event, o: F.Options, domain: Id)
    requires Flagged(t, domain)
    requires e.Evaluate? && e.domain == domain ==>
               var a := F.AnswerTo(t, domain, e.batch, e.now); a.None? || !a.value.authoritative
    ensures Flagged(F.Next(t, e, o), domain)
  {
    hide F.AnswerTo, F.Bound, F.Retained, F.PlanAt, F.PolicyAnswer, T.Accepted, H.RulesOf;
    if e.Ingest? {
      IngestDomains(t, o, e.samples);
    }
    if e.Evaluate? && e.domain == domain && F.AnswerTo(t, domain, e.batch, e.now).Some? {
      F.RevalidatedByCommit(t, domain, e.batch, e.now);
    }
  }

  lemma {:induction false} IngestDomains(s: F.State, o: F.Options, xs: seq<F.Sample>)
    ensures F.Ingested(s, o, xs).0.domains == s.domains
    decreases |xs|
  {
    hide F.FateOf;
    if xs != [] {
      IngestDomains(s, o, xs[..|xs| - 1]);
    }
  }
}
