/** The durable payload of every mutation kind: its layout, the checks its decoder
    makes, and the typed values behind it (src/durability/store_codec.cpp). */
module StoreCodec {
  import opened Words
  import opened Layout
  import T = Topology
  import P = Policy

  const POLICY_SET: u16 := 1
  const DOMAIN_STATE: u16 := 2
  const INTERVENTION: u16 := 3
  const FENCE: u16 := 4
  const EPOCH_ADVANCE: u16 := 5
  const REVALIDATION: u16 := 6
  const TOPOLOGY_SET: u16 := 7
  const CAPACITY_SET: u16 := 8
  const HISTORY_APPEND: u16 := 9
  const ATTEMPT_RECORD: u16 := 10
  const PROVENANCE_APPEND: u16 := 11
  const KIND_COUNT: u16 := 12

  predicate KnownKind(k: u16) {
    1 <= k < KIND_COUNT
  }

  const NOTE_BOUND: nat := 1024
  const C1 := Word(1)
  const C2 := Word(2)
  const C4 := Word(4)
  const C8 := Word(8)

  const RULE_COLUMNS := [C2, C1, C8, C8, C8, Flag, C8, C4]
  const INTERVENTION_COLUMNS := [C1, C1, C8, C8, Flag, Flag, C8, C8, C8, C4, C8]
  const RESOURCE_COLUMNS := [C8, C8, C8, C8, C1, C4, C8, C4]
  const LINK_COLUMNS := [C8, C8, C8, C8, C8, C4]
  const PATH_COLUMNS := [C8, C8, C4, Table(T.MAX_HOPS, [C8])]

  const DWELL_COLUMNS := [C4, C4, C8, C4, Flag, Flag]
  const RECOVERY_COLUMNS := [Flag, C4, Flag, C4, C8]
  const SPREAD_COLUMNS := [Flag, C4, C4, C1, Flag, Flag, C4]
  const FRESHNESS_COLUMNS := [C8, C8, Flag]
  const CONTRADICTION_COLUMNS := [C1, C8, C4, C8, Table(P.MAX_PUBLISHERS, [C8])]
  const LIMIT_COLUMNS := [C8, C8, C8, C4, C8, C8, C8, C8]
  const GATE_COLUMNS := [C4, C4, C4]

  const POLICY_LAYOUT: seq<Field> :=
    [C8, C4, Text(P.MAX_POLICY_NAME), C8, Table(P.MAX_RULES, RULE_COLUMNS), Group(DWELL_COLUMNS),
     Group(RECOVERY_COLUMNS), Group(SPREAD_COLUMNS), Group(FRESHNESS_COLUMNS), Group(CONTRADICTION_COLUMNS),
     Table(P.MAX_INTERVENTION_RULES, INTERVENTION_COLUMNS), Group(LIMIT_COLUMNS), Group(GATE_COLUMNS)]
  const DOMAIN_LAYOUT: seq<Field> :=
    [C8, C1, C1, C4, C8, C8, C8, C8, C8, C8, C8, C8, C8, C8, C8, C1, C8, C8, Flag]
  const TOPOLOGY_LAYOUT: seq<Field> :=
    [C8, C8, C8, C8, C8, Table(T.MAX_RESOURCES, RESOURCE_COLUMNS), Table(T.MAX_LINKS, LINK_COLUMNS),
     Table(T.MAX_PATHS, PATH_COLUMNS)]
  const CAPACITY_LAYOUT: seq<Field> := [C8, C8, C8, C8, C8, Table(T.MAX_RESOURCES, [C8, C8, C8, C8])]
  const INTERVENTION_LAYOUT: seq<Field> := [C8, C1, C8, C8, C1, C8, C8, C8, C8, C8, C8, C8, C8]
  const FENCE_LAYOUT: seq<Field> := [C8, C8, C8, C8, C8, C1, C8, C8, Text(NOTE_BOUND)]
  const HISTORY_LAYOUT: seq<Field> := [C8, C1, C1, C8, C8, C8, Text(NOTE_BOUND)]
  const ATTEMPT_LAYOUT: seq<Field> := [C8, C8, C2, C1, C8, C8, C8, C8, Text(NOTE_BOUND)]
  const PROVENANCE_LAYOUT: seq<Field> := [C8, C1, C8, C8, C8, C8, C8, C8, Text(NOTE_BOUND)]
  const EPOCH_LAYOUT: seq<Field> := [C8, C8, C8]
  const REVALIDATION_LAYOUT: seq<Field> := [C8, C8, C8, C1, C1, Flag, Flag, Flag, C8, C8, Text(NOTE_BOUND)]

  function Columns(kind: u16): seq<Field> {
    if kind == POLICY_SET then POLICY_LAYOUT
    else if kind == DOMAIN_STATE then DOMAIN_LAYOUT
    else if kind == INTERVENTION then INTERVENTION_LAYOUT
    else if kind == FENCE then FENCE_LAYOUT
    else if kind == EPOCH_ADVANCE then EPOCH_LAYOUT
    else if kind == REVALIDATION then REVALIDATION_LAYOUT
    else if kind == TOPOLOGY_SET then TOPOLOGY_LAYOUT
    else if kind == CAPACITY_SET then CAPACITY_LAYOUT
    else if kind == HISTORY_APPEND then HISTORY_LAYOUT
    else if kind == ATTEMPT_RECORD then ATTEMPT_LAYOUT
    else if kind == PROVENANCE_APPEND then PROVENANCE_LAYOUT
    else []
  }

  // ---- Reading cells --------------------------------------------------------

  function N(row: Row, i: nat): nat {
    if i < |row| && row[i].Num? then row[i].n else 0
  }

  function B(row: Row, i: nat): bool {
    i < |row| && row[i].Bit? && row[i].b
  }

  function S(row: Row, i: nat): seq<u8> {
    if i < |row| && row[i].Note? then row[i].s else []
  }

  function R(row: Row, i: nat): seq<Row> {
    if i < |row| && row[i].Rows? then row[i].rows else []
  }

  function G(row: Row, i: nat): Row {
    if i < |row| && row[i].Part? then row[i].part else []
  }

  // ---- Policies -------------------------------------------------------------

  function RuleOf(r: Row): P.Rule {
    P.Rule(N(r, 0), N(r, 1), N(r, 2), N(r, 3), N(r, 4), B(r, 5), N(r, 6), N(r, 7))
  }

  function RuleRow(r: P.Rule): Row {
    [Num(r.metric), Num(r.op), Num(r.watch), Num(r.congested), Num(r.severe), Bit(r.required), Num(r.maxAge),
        Num(r.weight)]
  }

  function InterventionOf(r: Row): P.InterventionRule {
    P.InterventionRule(N(r, 0), N(r, 1), N(r, 2), N(r, 3), B(r, 4), B(r, 5), N(r, 6), N(r, 7), N(r, 8), N(r, 9), N(r, 10))
  }

  function InterventionRow(r: P.InterventionRule): Row {
    [Num(r.atLeast), Num(r.kind), Num(r.targetClass), Num(r.targetDomain), Bit(r.requireFresh),
     Bit(r.requireAuthoritative), Num(r.low), Num(r.high), Num(r.default), Num(r.priority), Num(r.repeatInterval)]
  }

  function DwellOf(r: Row): P.Dwell {
    P.Dwell(N(r, 0), N(r, 1), N(r, 2), N(r, 3), B(r, 4), B(r, 5))
  }

  function DwellRow(d: P.Dwell): Row {
    [Num(d.escalateSamples), Num(d.deescalateSamples), Num(d.minDwell), Num(d.marginPpm), Bit(d.allMustAgree),
     Bit(d.onEscalation)]
  }

  function RecoveryOf(r: Row): P.Recovery {
    P.Recovery(B(r, 0), N(r, 1), B(r, 2), N(r, 3), N(r, 4))
  }

  function RecoveryRow(c: P.Recovery): Row {
    [Bit(c.enabled), Num(c.minImproved), Bit(c.allowSingle), Num(c.clearSamples), Num(c.holdTicks)]
  }

  function SpreadOf(r: Row): P.Spread {
    P.Spread(B(r, 0), N(r, 1), N(r, 2), N(r, 3), B(r, 4), B(r, 5), N(r, 6))
  }

  function SpreadRow(s: P.Spread): Row {
    [Bit(s.enabled), Num(s.maxDepth), Num(s.decayPpm), Num(s.maxInduced), Bit(s.followLinks), Bit(s.followPaths),
     Num(s.minPressure)]
  }

  function FreshnessOf(r: Row): P.Freshness {
    P.Freshness(N(r, 0), N(r, 1), B(r, 2))
  }

  function FreshnessRow(f: P.Freshness): Row {
    [Num(f.defaultMaxAge), Num(f.maxFutureSkew), Bit(f.heartbeatRefreshes)]
  }

  function ContradictionOf(r: Row): P.Contradiction {
    P.Contradiction(N(r, 0), N(r, 1), N(r, 2), N(r, 3),
                    seq(|R(r, 4)|, i requires 0 <= i < |R(r, 4)| => N(R(r, 4)[i], 0)))
  }

  function ContradictionRow(c: P.Contradiction): Row {
    [Num(c.mode), Num(c.absolute), Num(c.relativePpm), Num(c.minDistinct),
     Rows(seq(|c.priority|, i requires 0 <= i < |c.priority| => [Num(c.priority[i])]))]
  }

  function LimitsOf(r: Row): P.Limits {
    P.Limits(N(r, 0), N(r, 1), N(r, 2), N(r, 3), N(r, 4), N(r, 5), N(r, 6), N(r, 7))
  }

  function LimitsRow(l: P.Limits): Row {
    [Num(l.resourcesPerDomain), Num(l.metricsPerSample), Num(l.pathsConsidered), Num(l.domainDepth),
     Num(l.explanations), Num(l.interventionsPerPlan), Num(l.conflicts), Num(l.stale)]
  }

  function GatesOf(r: Row): P.Gates {
    P.Gates(N(r, 0), N(r, 1), N(r, 2))
  }

  function GatesRow(g: P.Gates): Row {
    [Num(g.watch), Num(g.congested), Num(g.severe)]
  }

  function PolicyOf(r: Row): P.Policy {
    P.Policy(
      N(r, 0), N(r, 1), S(r, 2), N(r, 3), seq(|R(r, 4)|, i requires 0 <= i < |R(r, 4)| => RuleOf(R(r, 4)[i])),
      DwellOf(G(r, 5)), RecoveryOf(G(r, 6)), SpreadOf(G(r, 7)), FreshnessOf(G(r, 8)), ContradictionOf(G(r, 9)),
      seq(|R(r, 10)|, i requires 0 <= i < |R(r, 10)| => InterventionOf(R(r, 10)[i])),
      LimitsOf(G(r, 11)), GatesOf(G(r, 12)))
  }

  function PolicyRow(p: P.Policy): Row {
    [Num(p.id), Num(p.version), Note(p.name), Num(p.fingerprint),
     Rows(seq(|p.rules|, i requires 0 <= i < |p.rules| => RuleRow(p.rules[i]))),
     Part(DwellRow(p.dwell)), Part(RecoveryRow(p.recovery)), Part(SpreadRow(p.spread)),
     Part(FreshnessRow(p.freshness)), Part(ContradictionRow(p.contradiction)),
     Rows(seq(|p.interventions|, i requires 0 <= i < |p.interventions| => InterventionRow(p.interventions[i]))),
     Part(LimitsRow(p.limits)), Part(GatesRow(p.gates))]
  }

  lemma {:induction false} PartsThroughRows(p: P.Policy)
    ensures DwellOf(DwellRow(p.dwell)) == p.dwell && RecoveryOf(RecoveryRow(p.recovery)) == p.recovery
    ensures SpreadOf(SpreadRow(p.spread)) == p.spread && FreshnessOf(FreshnessRow(p.freshness)) == p.freshness
    ensures LimitsOf(LimitsRow(p.limits)) == p.limits && GatesOf(GatesRow(p.gates)) == p.gates
    ensures ContradictionOf(ContradictionRow(p.contradiction)) == p.contradiction
  {
    assert ContradictionOf(ContradictionRow(p.contradiction)).priority == p.contradiction.priority;
  }

  lemma {:induction false} RulesThroughRows(r: P.Rule, i: P.InterventionRule)
    ensures RuleOf(RuleRow(r)) == r && InterventionOf(InterventionRow(i)) == i
  {
  }

  /** No field of a policy is lost or swapped on the way to its row and back. */
  lemma {:induction false} PolicyThroughRow(p: P.Policy)
    ensures PolicyOf(PolicyRow(p)) == p
  {
    hide RuleOf, RuleRow, InterventionOf, InterventionRow;
    hide DwellOf, RecoveryOf, SpreadOf, FreshnessOf, ContradictionOf, LimitsOf, GatesOf;
    hide DwellRow, RecoveryRow, SpreadRow, FreshnessRow, ContradictionRow, LimitsRow, GatesRow;
    var q := PolicyOf(PolicyRow(p));
    PartsThroughRows(p);
    forall i | 0 <= i < |p.rules|
      ensures q.rules[i] == p.rules[i]
    {
      RulesThroughRows(p.rules[i], P.NO_INTERVENTION);
    }
    assert q.rules == p.rules;
    forall i | 0 <= i < |p.interventions|
      ensures q.interventions[i] == p.interventions[i]
    {
      RulesThroughRows(P.NO_RULE, p.interventions[i]);
    }
    assert q.interventions == p.interventions;
  }

  // ---- Topologies -----------------------------------------------------------

  function ResourceOf(r: Row): T.Resource {
    T.Resource(N(r, 0), N(r, 1), N(r, 2), N(r, 3), N(r, 4), N(r, 5), N(r, 6), N(r, 7))
  }

  function ResourceRow(r: T.Resource): Row {
    [Num(r.id), Num(r.domain), Num(r.parent), Num(r.servingClass), Num(r.kind), Num(r.depth), Num(r.capacity),
        Num(r.flags)]
  }

  function LinkOf(r: Row): T.Link {
    T.Link(N(r, 0), N(r, 1), N(r, 2), N(r, 3), N(r, 4), N(r, 5))
  }

  function LinkRow(l: T.Link): Row {
    [Num(l.id), Num(l.from), Num(l.to), Num(l.capacity), Num(l.latency), Num(l.weight)]
  }

  function PathOf(r: Row): T.Path {
    T.Path(N(r, 0), seq(|R(r, 3)|, i requires 0 <= i < |R(r, 3)| => N(R(r, 3)[i], 0)), N(r, 1), N(r, 2))
  }

  function PathRow(p: T.Path): Row {
    [Num(p.id), Num(p.capacity), Num(p.flags), Rows(seq(|p.hops|, i requires 0 <= i < |p.hops| => [Num(p.hops[i])]))]
  }

  function TopologyOf(r: Row): T.Snapshot {
    T.Snapshot(
      N(r, 0), N(r, 1), N(r, 2), N(r, 3),
      seq(|R(r, 5)|, i requires 0 <= i < |R(r, 5)| => ResourceOf(R(r, 5)[i])),
      seq(|R(r, 6)|, i requires 0 <= i < |R(r, 6)| => LinkOf(R(r, 6)[i])),
      seq(|R(r, 7)|, i requires 0 <= i < |R(r, 7)| => PathOf(R(r, 7)[i])))
  }

  function TopologyRow(s: T.Snapshot, fingerprint: nat): Row {
    [Num(s.id), Num(s.generation), Num(s.epoch), Num(s.observedTick), Num(fingerprint),
     Rows(seq(|s.resources|, i requires 0 <= i < |s.resources| => ResourceRow(s.resources[i]))),
     Rows(seq(|s.links|, i requires 0 <= i < |s.links| => LinkRow(s.links[i]))),
     Rows(seq(|s.paths|, i requires 0 <= i < |s.paths| => PathRow(s.paths[i])))]
  }

  lemma {:induction false} PathThroughRow(p: T.Path)
    ensures PathOf(PathRow(p)) == p
  {
    assert PathOf(PathRow(p)).hops == p.hops;
  }

  lemma {:induction false} TopologyThroughRow(s: T.Snapshot, fingerprint: nat)
    ensures TopologyOf(TopologyRow(s, fingerprint)) == s
  {
    hide PathOf, PathRow;
    var q := TopologyOf(TopologyRow(s, fingerprint));
    assert q.resources == s.resources;
    assert q.links == s.links;
    forall i | 0 <= i < |s.paths|
      ensures q.paths[i] == s.paths[i]
    {
      PathThroughRow(s.paths[i]);
    }
    assert q.paths == s.paths;
  }

  // ---- Domain states --------------------------------------------------------

  datatype Domain = Domain(
    id: nat, state: nat, candidate: nat, streak: nat, lastChange: nat, lastAuthoritative: nat, lastEvaluated: nat,
    lastEvaluation: nat, lastEvidence: nat, epoch: nat, topologyGeneration: nat, capacityGeneration: nat, policy: nat,
    policyFingerprint: nat, authorityGeneration: nat, committedSeverity: nat, transitions: nat, evaluations: nat,
    requiresRevalidation: bool)

  function DomainOf(r: Row): Domain {
    Domain(N(r, 0), N(r, 1), N(r, 2), N(r, 3), N(r, 4), N(r, 5), N(r, 6), N(r, 7), N(r, 8), N(r, 9), N(r, 10),
           N(r, 11), N(r, 12), N(r, 13), N(r, 14), N(r, 15), N(r, 16), N(r, 17), B(r, 18))
  }

  function DomainRow(d: Domain): Row {
    [Num(d.id), Num(d.state), Num(d.candidate), Num(d.streak), Num(d.lastChange), Num(d.lastAuthoritative),
     Num(d.lastEvaluated), Num(d.lastEvaluation), Num(d.lastEvidence), Num(d.epoch), Num(d.topologyGeneration),
     Num(d.capacityGeneration), Num(d.policy), Num(d.policyFingerprint), Num(d.authorityGeneration),
     Num(d.committedSeverity), Num(d.transitions), Num(d.evaluations), Bit(d.requiresRevalidation)]
  }

  lemma {:induction false} DomainThroughRow(d: Domain)
    ensures DomainOf(DomainRow(d)) == d
  {
  }

  lemma {:induction false} DomainKey(r: Row)
    ensures DomainOf(r).id == N(r, 0)
  {
  }

  // ---- The policy fingerprint -----------------------------------------------

  function Xor(a: nat, b: nat, bits: nat): nat
    decreases bits, a
  {
    if bits == 0 then 0 else (a + b) % 2 + 2 * Xor(a / 2, b / 2, bits - 1)
  }

  function Mix(state: nat, x: nat, prime: nat): u64 {
    (Xor(state, x, 64) * prime) % (MAX_U64 + 1)
  }

  const FNV_OFFSET: u64 := 0xCBF2_9CE4_8422_2325
  const FNV_PRIME: u64 := 0x100_0000_01B3

  function Hash(state: u64, b: seq<u8>): u64
    decreases |b|
  {
    if b == [] then state else Hash(Mix(state, b[0], FNV_PRIME), b[1..])
  }

  function Finish(state: u64): u64 {
    var s := Mix(state, 0xA5A5_A5A5_A5A5_A5A5, FNV_PRIME);
    var t := Mix(s, s / 0x2000_0000, 0xBF58_476D_1CE4_E5B9);
    var u := Mix(t, t / 0x1_0000_0000, 1);
    if u == 0 then FNV_OFFSET else u
  }

  /** The fingerprint hashes every field but itself, the name under a 64-bit length. */
  function Fingerprint(row: Row): u64
    requires Fits(POLICY_LAYOUT, row)
  {
    FitsFrom(POLICY_LAYOUT, row, 4);
    var head := Le(N(row, 0), 8) + Le(N(row, 1), 4) + Le(|S(row, 2)|, 8) + S(row, 2);
    Finish(Hash(FNV_OFFSET, head + Encode(POLICY_LAYOUT[4..], row[4..])))
  }

  // ---- Decoding a body ------------------------------------------------------

  predicate CapacityOk(entries: seq<Row>) {
    && (forall i | 0 < i < |entries| :: N(entries[i - 1], 0) < N(entries[i], 0))
    && (forall e | e in entries ::
          N(e, 0) != 0 && N(e, 1) <= T.MAX_RATE_BPS && N(e, 2) <= N(e, 1) && N(e, 3) <= N(e, 1))
  }

  /** The checks a decoder makes once every field is read. */
  predicate Admissible(kind: u16, row: Row) {
    if kind == POLICY_SET then P.Valid(PolicyOf(row))
    else if kind == TOPOLOGY_SET then T.Accepted(TopologyOf(row))
    else if kind == CAPACITY_SET then |R(row, 5)| <= T.MAX_RESOURCES && CapacityOk(R(row, 5))
    else if kind == DOMAIN_STATE then N(row, 0) != 0
    else if kind == INTERVENTION then N(row, 0) != 0 && N(row, 2) != 0
    else if kind == FENCE then N(row, 0) != 0 && N(row, 2) != 0 && N(row, 3) != 0
    else if kind == EPOCH_ADVANCE then N(row, 0) != 0 && N(row, 1) != 0
    else KnownKind(kind)
  }

  /** Accepting a policy recomputes its fingerprint. */
  function Canonical(kind: u16, row: Row): Row
    requires Fits(Columns(kind), row)
  {
    if kind == POLICY_SET then
      FitsAt(POLICY_LAYOUT, row, 3);
      row[3 := Num(Fingerprint(row))]
    else row
  }

  datatype Decoded = Accepted(row: Row) | Rejected(why: Why)
  datatype Why = UnknownKind | Unreadable(fault: Fault) | Inadmissible

  function DecodeBody(kind: u16, body: seq<u8>): Decoded {
    if !KnownKind(kind) then Rejected(UnknownKind)
    else
      match Decode(Columns(kind), body)
      case Fail(fault) => Rejected(Unreadable(fault))
      case Got(row, _) =>
        LayoutsSound(kind);
        DecodeFits(Columns(kind), body);
        if Admissible(kind, row) then Accepted(Canonical(kind, row)) else Rejected(Inadmissible)
  }

  /** A row as the document holds it: writable, admissible and canonical. */
  predicate Stored(kind: u16, row: Row) {
    && KnownKind(kind) && Fits(Columns(kind), row) && Admissible(kind, row) && Canonical(kind, row) == row
  }

  lemma {:induction false} LayoutsSound(kind: u16)
    ensures Sound(Columns(kind))
  {
    hide Sound, Columns;
    if kind == POLICY_SET || kind == TOPOLOGY_SET {
      NestedSound();
    } else {
      FlatSound(kind);
    }
    ColumnsOf(kind);
  }

  lemma {:induction false} ColumnsOf(kind: u16)
    ensures Columns(POLICY_SET) == POLICY_LAYOUT && Columns(TOPOLOGY_SET) == TOPOLOGY_LAYOUT
  {
  }

  lemma {:induction false} NestedSound()
    ensures Sound(POLICY_LAYOUT) && Sound(TOPOLOGY_LAYOUT)
  {
    hide Sound;
    ColumnsSound();
    SoundAll(POLICY_LAYOUT);
    TopologySound();
  }

  lemma {:induction false} TopologySound()
    ensures Sound(TOPOLOGY_LAYOUT)
  {
    hide Sound;
    ColumnsSound();
    SoundAll(TOPOLOGY_LAYOUT);
  }

  lemma {:induction false} FlatSound(kind: u16)
    requires kind != POLICY_SET && kind != TOPOLOGY_SET
    ensures Sound(Columns(kind))
  {
    hide Sound;
    ColumnsSound();
    var fs := Columns(kind);
    assert forall f | f in fs :: SoundField(f) by {
      hide SoundField;
      FieldsSound();
      if kind == CAPACITY_SET {
        assert forall f | f in fs :: f == C8 || f == Table(T.MAX_RESOURCES, [C8, C8, C8, C8]);
      } else {
        assert forall f | f in fs :: f.Word? || f.Flag? || f == Text(NOTE_BOUND);
      }
    }
    SoundAll(fs);
  }

  lemma {:induction false} FieldsSound()
    ensures forall f: Field | f.Word? || f.Flag? :: SoundField(f)
    ensures SoundField(Text(NOTE_BOUND)) && SoundField(Table(T.MAX_RESOURCES, [C8, C8, C8, C8]))
  {
    hide Sound;
    ColumnsSound();
  }

  lemma {:induction false} ColumnsSound()
    ensures forall fs | fs in [RULE_COLUMNS, INTERVENTION_COLUMNS, RESOURCE_COLUMNS, LINK_COLUMNS, PATH_COLUMNS,
                               DWELL_COLUMNS, RECOVERY_COLUMNS, SPREAD_COLUMNS, FRESHNESS_COLUMNS,
                               CONTRADICTION_COLUMNS, LIMIT_COLUMNS, GATE_COLUMNS, [C8, C8, C8, C8]] :: Sound(fs)
  {
    hide Sound;
    SoundAll([C8]);
    forall fs | fs in [RULE_COLUMNS, INTERVENTION_COLUMNS, RESOURCE_COLUMNS, LINK_COLUMNS, PATH_COLUMNS,
                       DWELL_COLUMNS, RECOVERY_COLUMNS, SPREAD_COLUMNS, FRESHNESS_COLUMNS,
                       CONTRADICTION_COLUMNS, LIMIT_COLUMNS, GATE_COLUMNS, [C8, C8, C8, C8]]
      ensures Sound(fs)
    {
      SoundAll(fs);
    }
  }

  lemma {:induction false} SoundAll(fs: seq<Field>)
    requires forall f | f in fs :: SoundField(f)
    ensures Sound(fs)
  {
    if fs != [] {
      SoundAll(fs[1..]);
    }
  }

  /** What decoding accepts is stored form, and is written no longer than it was read. */
  lemma {:induction false} DecodedIsStored(kind: u16, body: seq<u8>)
    requires DecodeBody(kind, body).Accepted?
    ensures Stored(kind, DecodeBody(kind, body).row)
    ensures |Encode(Columns(kind), DecodeBody(kind, body).row)| <= |body|
  {
    hide Columns, Admissible, Fits, Encode, Decode, Sound;
    LayoutsSound(kind);
    DecodeFits(Columns(kind), body);
    DecodeSize(Columns(kind), body);
    CanonicalStored(kind, Decode(Columns(kind), body).value);
  }

  lemma {:induction false} CanonicalStored(kind: u16, row: Row)
    requires KnownKind(kind) && Fits(Columns(kind), row) && Admissible(kind, row)
    ensures Stored(kind, Canonical(kind, row))
    ensures |Encode(Columns(kind), Canonical(kind, row))| == |Encode(Columns(kind), row)|
  {
    hide Fits, Encode, P.Valid, PolicyOf, Fingerprint;
    if kind == POLICY_SET {
      var fixed := Canonical(kind, row);
      FitsAt(POLICY_LAYOUT, row, 3);
      FitsWord(Fingerprint(row));
      FitsReplaced(POLICY_LAYOUT, row, 3, fixed[3]);
      FixedKept(row, Fingerprint(row));
      SameFingerprint(row, fixed);
    }
  }

  lemma {:induction false} FitsWord(n: u64)
    ensures FitsCell(C8, Num(n))
  {
    SpanValues();
  }

  lemma {:induction false} FixedKept(row: Row, n: nat)
    requires |row| == |POLICY_LAYOUT| && P.Valid(PolicyOf(row))
    ensures P.Valid(PolicyOf(row[3 := Num(n)]))
  {
    hide P.Valid, PolicyOf;
    OnlyFingerprint(row, n);
    ValidAnyFingerprint(PolicyOf(row), n);
  }

  lemma {:induction false} ValidAnyFingerprint(p: P.Policy, fingerprint: nat)
    requires P.Valid(p)
    ensures P.Valid(p.(fingerprint := fingerprint))
  {
  }

  lemma {:induction false} SameFingerprint(row: Row, fixed: Row)
    requires Fits(POLICY_LAYOUT, row) && Fits(POLICY_LAYOUT, fixed) && |row| == |fixed| > 4
    requires fixed == row[3 := fixed[3]]
    ensures Fingerprint(fixed) == Fingerprint(row)
  {
    hide Encode, Hash, Finish;
    FitsFrom(POLICY_LAYOUT, row, 4);
    assert fixed[4..] == row[4..];
  }

  /** Decoding what was encoded gives the same row, whatever bytes follow. */
  lemma {:induction false} BodyRoundTrip(kind: u16, row: Row, trailing: seq<u8>)
    requires Stored(kind, row)
    ensures DecodeBody(kind, Encode(Columns(kind), row) + trailing) == Accepted(row)
  {
    hide Columns, Admissible, Fits, Encode, Decode, Sound;
    RoundTrip(Columns(kind), row, trailing);
  }

  /** Every strict prefix of an encoding is refused. */
  lemma {:induction false} BodyPrefixRefused(kind: u16, row: Row, n: nat)
    requires Stored(kind, row) && n < |Encode(Columns(kind), row)|
    ensures DecodeBody(kind, Encode(Columns(kind), row)[..n]).Rejected?
  {
    hide Columns, Admissible, Fits, Encode, Decode, Sound;
    PrefixRefused(Columns(kind), row, n);
  }

  /** A valid policy comes back field for field, with its fingerprint recomputed. */
  lemma {:induction false} PolicyRoundTrip(p: P.Policy)
    requires P.Valid(p) && Fits(POLICY_LAYOUT, PolicyRow(p))
    ensures var d := DecodeBody(POLICY_SET, Encode(POLICY_LAYOUT, PolicyRow(p)));
            d.Accepted? && PolicyOf(d.row) == p.(fingerprint := Fingerprint(PolicyRow(p)))
  {
    hide PolicyRow, Fits, Encode, Decode, Sound, PolicyOf, P.Valid, Fingerprint;
    var row := PolicyRow(p);
    PolicyThroughRow(p);
    RoundTrip(POLICY_LAYOUT, row, []);
    assert Encode(POLICY_LAYOUT, row) + [] == Encode(POLICY_LAYOUT, row);
    FitsAt(POLICY_LAYOUT, row, 3);
    OnlyFingerprint(row, Fingerprint(row));
  }

  lemma {:induction false} OnlyFingerprint(row: Row, n: nat)
    requires |row| == |POLICY_LAYOUT|
    ensures PolicyOf(row[3 := Num(n)]) == PolicyOf(row).(fingerprint := n)
  {
    hide RuleOf, InterventionOf, DwellOf, RecoveryOf, SpreadOf, FreshnessOf, ContradictionOf, LimitsOf, GatesOf;
    var p, q := PolicyOf(row), PolicyOf(row[3 := Num(n)]);
    assert p.rules == q.rules && p.interventions == q.interventions;
  }

  /** A valid topology comes back with its nested paths and hops. */
  lemma {:induction false} TopologyRoundTrip(s: T.Snapshot, fingerprint: nat)
    requires T.Valid(s) && Fits(TOPOLOGY_LAYOUT, TopologyRow(s, fingerprint))
    ensures var d := DecodeBody(TOPOLOGY_SET, Encode(TOPOLOGY_LAYOUT, TopologyRow(s, fingerprint)));
            d.Accepted? && TopologyOf(d.row) == s && N(d.row, 4) == fingerprint
  {
    hide Fits, Encode, Decode, Sound, T.Valid, T.Accepted, TopologyOf;
    var row := TopologyRow(s, fingerprint);
    TopologyThroughRow(s, fingerprint);
    T.AcceptedIsValid(s);
    RoundTrip(TOPOLOGY_LAYOUT, row, []);
    assert Encode(TOPOLOGY_LAYOUT, row) + [] == Encode(TOPOLOGY_LAYOUT, row);
  }

  /** A domain state with an identity comes back unchanged; one without is refused. */
  lemma {:induction false} DomainRoundTrip(d: Domain)
    requires Fits(DOMAIN_LAYOUT, DomainRow(d))
    ensures var r := DecodeBody(DOMAIN_STATE, Encode(DOMAIN_LAYOUT, DomainRow(d)));
            if d.id == 0 then r == Rejected(Inadmissible) else r.Accepted? && DomainOf(r.row) == d
  {
    hide Fits, Encode, Decode, Sound, DomainRow, DomainOf;
    var row := DomainRow(d);
    DomainThroughRow(d);
    DomainKey(row);
    RoundTrip(DOMAIN_LAYOUT, row, []);
    assert Encode(DOMAIN_LAYOUT, row) + [] == Encode(DOMAIN_LAYOUT, row);
  }
}
