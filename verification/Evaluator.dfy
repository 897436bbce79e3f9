/** One evaluation of a domain: which samples are admitted, which reading stands for a
    metric, how readings become a gated severity per resource, and how those become
    the domain's proposal (src/eval/evaluator.cpp). */
module Evaluator {
  import opened Words
  import opened Model
  import opened Contradiction
  import E = Evidence
  import P = Policy
  import T = Topology
  import H = Hysteresis

  type Id = T.Id

  /** A sample with what ingest and evaluation look at; `snapshot` is the identity of its content. */
  datatype Sample = Sample(
    resource: Id, queue: Id, publisher: Id, boot: Id, epoch: Id, generation: nat, sequence: nat, observed: nat,
    heartbeat: bool, degraded: bool, snapshot: Id, metrics: seq<E.Reading>)

  /** What an evaluation is made against. An epoch of zero means none is known. */
  datatype Context = Context(policy: P.Policy, resources: seq<Id>, known: Option<set<Id>>, epoch: nat, now: nat)

  datatype Key = Key(resource: Id, queue: nat, metric: nat)

  const MAX_PEERS: nat := 64

  // ---- Admission ------------------------------------------------------------

  predicate Passes(c: Context, s: Sample) {
    && s.resource != 0 && s.resource in c.resources && !s.heartbeat
    && (c.epoch != 0 ==> s.epoch == c.epoch)
    && (c.known.Some? ==> s.resource in c.known.value)
  }

  function SnapshotsOf(ss: seq<Sample>): set<nat> {
    set s | s in ss :: s.snapshot
  }

  /** The samples that pass, each content once: the first stands. */
  function Admitted(c: Context, ss: seq<Sample>): seq<Sample> {
    if ss == [] then []
    else
      var front, s := Admitted(c, ss[..|ss| - 1]), ss[|ss| - 1];
      if Passes(c, s) && s.snapshot !in SnapshotsOf(front) then front + [s] else front
  }

  function ValueFrom(rs: seq<E.Reading>, metric: nat): Option<nat> {
    if rs == [] then None else if rs[0].kind == metric then Some(rs[0].value) else ValueFrom(rs[1..], metric)
  }

  /** Not further in the future than the skew allows, not older than the metric allows. */
  predicate FreshFor(c: Context, s: Sample, metric: nat) {
    if s.observed > c.now then s.observed - c.now <= c.policy.freshness.maxFutureSkew
    else c.now - s.observed <= P.MaxAgeFor(c.policy, metric)
  }

  predicate Reads(c: Context, s: Sample, k: Key) {
    s.resource == k.resource && s.queue == k.queue && ValueFrom(s.metrics, k.metric).Some? && FreshFor(c, s, k.metric)
  }

  /** An observation from ahead of the clock is dated to now. */
  function ObservationOf(c: Context, s: Sample, metric: nat): Observation
    requires ValueFrom(s.metrics, metric).Some?
  {
    Observation(ValueFrom(s.metrics, metric).value, s.publisher, s.generation,
                if s.observed > c.now then c.now else s.observed, s.degraded, s.observed > c.now, s.snapshot)
  }

  /** The readings under a key, in order, up to the peer bound. */
  function Bucket(c: Context, admitted: seq<Sample>, k: Key): (b: seq<Observation>)
    ensures |b| <= MAX_PEERS
  {
    if admitted == [] then []
    else
      var front, s := Bucket(c, admitted[..|admitted| - 1], k), admitted[|admitted| - 1];
      if Reads(c, s, k) && |front| < MAX_PEERS then front + [ObservationOf(c, s, k.metric)] else front
  }

  /** Every reading under a key is an admitted, fresh observation of that metric. */
  lemma {:induction false} BucketIsAdmitted(c: Context, admitted: seq<Sample>, k: Key)
    ensures forall o | o in Bucket(c, admitted, k) ::
              exists s :: s in admitted && Reads(c, s, k) && o == ObservationOf(c, s, k.metric)
    decreases |admitted|
  {
    hide ObservationOf, FreshFor, ValueFrom;
    if admitted != [] {
      var front, s := admitted[..|admitted| - 1], admitted[|admitted| - 1];
      BucketIsAdmitted(c, front, k);
      assert admitted == front + [s];
      forall o | o in Bucket(c, admitted, k)
        ensures exists x :: x in admitted && Reads(c, x, k) && o == ObservationOf(c, x, k.metric)
      {
        if o in Bucket(c, front, k) {
          var x :| x in front && Reads(c, x, k) && o == ObservationOf(c, x, k.metric);
          assert x in admitted;
        } else {
          assert s in admitted && Reads(c, s, k);
        }
      }
    }
  }

  lemma {:induction false} AdmittedPasses(c: Context, ss: seq<Sample>)
    ensures forall s | s in Admitted(c, ss) :: s in ss && Passes(c, s)
    ensures forall i, j | 0 <= i < j < |Admitted(c, ss)| :: Admitted(c, ss)[i].snapshot != Admitted(c, ss)[j].snapshot
    decreases |ss|
  {
    hide Passes;
    if ss != [] {
      var front := ss[..|ss| - 1];
      AdmittedPasses(c, front);
      assert ss == front + [ss[|ss| - 1]];
      var a := Admitted(c, front);
      assert forall i | 0 <= i < |a| :: a[i] in a && a[i].snapshot in SnapshotsOf(a);
    }
  }

  // ---- The reading that stands for a metric ---------------------------------

  /** What the evaluation knows of a key. */
  function DecisionAt(c: Context, admitted: seq<Sample>, k: Key): Option<Decision> {
    var b := Bucket(c, admitted, k);
    if b == [] then None
    else
      assert Kept(b) != [] by {
        WinnerIsBest(b);
      }
      Some(Decide(c.policy.contradiction, Kept(b)))
  }

  predicate UnresolvedAt(c: Context, admitted: seq<Sample>, queues: seq<nat>, resource: Id, metric: nat) {
    exists q | q in queues ::
      var d := DecisionAt(c, admitted, Key(resource, q, metric));
      d.Some? && d.value.conflict && !d.value.resolved
  }

  datatype Pick = Absent | Picked(up: Severity, down: Severity, queue: nat, observation: Observation)

  predicate PickBetter(up: Severity, o: Observation, queue: nat, p: Pick) {
    || p.Absent?
    || up > p.up
    || (up == p.up && (o.observed > p.observation.observed || (o.observed == p.observation.observed && queue < p.queue)))
  }

  function PickNext(c: Context, rule: P.Rule, queue: nat, d: Option<Decision>, p: Pick): Pick {
    match d
    case None => p
    case Some(decision) =>
      var o := decision.winner;
      var up := P.ClassifyWithMargin(rule, o.value, 0);
      if PickBetter(up, o, queue, p)
      then Picked(up, P.ClassifyWithMargin(rule, o.value, c.policy.dwell.marginPpm), queue, o) else p
  }

  /** The worst queue stands for the resource: highest level, then newest, then lowest queue. */
  function PickOver(c: Context, admitted: seq<Sample>, queues: seq<nat>, resource: Id, rule: P.Rule): Pick {
    if queues == [] then Absent
    else
      var q := queues[|queues| - 1];
      PickNext(c, rule, q, DecisionAt(c, admitted, Key(resource, q, rule.metric)),
               PickOver(c, admitted, queues[..|queues| - 1], resource, rule))
  }

  datatype Outcome = Silent | Disputed | Read(pick: Pick)

  function OutcomeOf(c: Context, admitted: seq<Sample>, queues: seq<nat>, resource: Id, rule: P.Rule): Outcome {
    if UnresolvedAt(c, admitted, queues, resource, rule.metric) then Disputed
    else
      var p := PickOver(c, admitted, queues, resource, rule);
      if p.Absent? then Silent else Read(p)
  }

  /** The picked reading was decided for one of the resource's queues. */
  lemma {:induction false} PickedIsDecided(c: Context, admitted: seq<Sample>, queues: seq<nat>, resource: Id,
                                           rule: P.Rule)
    ensures var p := PickOver(c, admitted, queues, resource, rule);
            p.Picked? ==>
              && p.queue in queues
              && var d := DecisionAt(c, admitted, Key(resource, p.queue, rule.metric));
              && d.Some? && p.observation == d.value.winner
              && p.up == P.ClassifyWithMargin(rule, p.observation.value, 0)
              && p.down == P.ClassifyWithMargin(rule, p.observation.value, c.policy.dwell.marginPpm)
    ensures NoneWorse(c, admitted, queues, resource, rule)
    decreases |queues|
  {
    hide DecisionAt;
    if queues != [] {
      var front := queues[..|queues| - 1];
      PickedIsDecided(c, admitted, front, resource, rule);
      assert queues == front + [queues[|queues| - 1]];
    }
  }

  /** No queue's decided reading classifies above the one picked. */
  predicate NoneWorse(c: Context, admitted: seq<Sample>, queues: seq<nat>, resource: Id, rule: P.Rule) {
    var p := PickOver(c, admitted, queues, resource, rule);
    forall q | q in queues ::
      var d := DecisionAt(c, admitted, Key(resource, q, rule.metric));
      d.Some? ==> p.Picked? && P.ClassifyWithMargin(rule, d.value.winner.value, 0) <= p.up
  }

  // ---- Per-resource severity ------------------------------------------------

  datatype Coverage = NoCoverage | PartialCoverage | FullCoverage

  datatype Assessment = Assessment(up: Severity, down: Severity, disputed: bool, coverage: Coverage)

  predicate ReadsUp(o: Outcome, level: Severity) {
    o.Read? && o.pick.Picked? && o.pick.up >= level
  }

  predicate ReadsDown(o: Outcome, level: Severity) {
    o.Read? && o.pick.Picked? && o.pick.down >= level
  }

  /** How many rules read at or above a level. */
  function AgreeUp(os: seq<Outcome>, level: Severity): (n: nat)
    ensures n <= |os|
  {
    if os == [] then 0
    else AgreeUp(os[..|os| - 1], level) + if ReadsUp(os[|os| - 1], level) then 1 else 0
  }

  function AgreeDown(os: seq<Outcome>, level: Severity): (n: nat)
    ensures n <= |os|
  {
    if os == [] then 0
    else AgreeDown(os[..|os| - 1], level) + if ReadsDown(os[|os| - 1], level) then 1 else 0
  }

  function Gate(watch: nat, congested: nat, severe: nat, g: P.Gates): Severity {
    if g.severe != 0 && severe >= g.severe then SEVERE
    else if g.congested != 0 && congested >= g.congested then CONGESTED
    else if g.watch != 0 && watch >= g.watch then WATCH
    else CLEAR
  }

  function StrictestDown(os: seq<Outcome>): Severity {
    if os == [] then CLEAR
    else
      var s, o := StrictestDown(os[..|os| - 1]), os[|os| - 1];
      if o.Read? && o.pick.Picked? && o.pick.down > s then o.pick.down else s
  }

  function Up(os: seq<Outcome>, g: P.Gates): Severity {
    Gate(AgreeUp(os, WATCH), AgreeUp(os, CONGESTED), AgreeUp(os, SEVERE), g)
  }

  function Down(os: seq<Outcome>, p: P.Policy): Severity {
    var up := Up(os, p.gates);
    var down := if p.dwell.allMustAgree then StrictestDown(os)
                else Gate(AgreeDown(os, WATCH), AgreeDown(os, CONGESTED), AgreeDown(os, SEVERE), p.gates);
    if down < up then up else down
  }

  predicate AnyDisputed(os: seq<Outcome>) {
    exists i | 0 <= i < |os| :: os[i].Disputed?
  }

  predicate AnyRead(os: seq<Outcome>) {
    exists i | 0 <= i < |os| :: os[i].Read?
  }

  predicate RequiredRead(os: seq<Outcome>, rules: seq<P.Rule>)
    requires |os| == |rules|
  {
    forall i | 0 <= i < |os| && rules[i].required :: os[i].Read?
  }

  function Assess(os: seq<Outcome>, p: P.Policy): Assessment
    requires |os| == |p.rules|
  {
    Assessment(Up(os, p.gates), Down(os, p), AnyDisputed(os),
               if !AnyRead(os) then (if AnyDisputed(os) then PartialCoverage else NoCoverage)
               else if RequiredRead(os, p.rules) then FullCoverage else PartialCoverage)
  }

  function Outcomes(c: Context, admitted: seq<Sample>, queues: seq<nat>, resource: Id,
                    rules: seq<P.Rule>): (os: seq<Outcome>)
    ensures |os| == |rules|
    ensures forall i | 0 <= i < |rules| :: os[i] == OutcomeOf(c, admitted, queues, resource, rules[i])
  {
    seq(|rules|, i requires 0 <= i < |rules| => OutcomeOf(c, admitted, queues, resource, rules[i]))
  }

  /** A resource is at a level above Clear only if some rule was read for it. */
  lemma {:induction false} AgreeNeedsRead(os: seq<Outcome>, level: Severity)
    ensures AgreeUp(os, level) > 0 ==> AnyRead(os)
    decreases |os|
  {
    if os != [] {
      AgreeNeedsRead(os[..|os| - 1], level);
    }
  }

  lemma {:induction false} UpNeedsRead(os: seq<Outcome>, p: P.Policy)
    requires |os| == |p.rules|
    ensures Assess(os, p).up != CLEAR ==> Assess(os, p).coverage != NoCoverage
    ensures Assess(os, p).up <= Assess(os, p).down
  {
    AgreeNeedsRead(os, WATCH);
    AgreeNeedsRead(os, CONGESTED);
    AgreeNeedsRead(os, SEVERE);
  }

  // ---- The domain's proposal ------------------------------------------------

  function MaxUp(xs: seq<Assessment>): Severity {
    if xs == [] then CLEAR
    else
      var m, a := MaxUp(xs[..|xs| - 1]), xs[|xs| - 1];
      if a.coverage != NoCoverage && a.up > m then a.up else m
  }

  function MaxDown(xs: seq<Assessment>): Severity {
    if xs == [] then CLEAR
    else
      var m, a := MaxDown(xs[..|xs| - 1]), xs[|xs| - 1];
      if a.coverage != NoCoverage && a.down > m then a.down else m
  }

  predicate AnyConflict(xs: seq<Assessment>) {
    exists i | 0 <= i < |xs| :: xs[i].disputed
  }

  predicate AnyEvidence(xs: seq<Assessment>) {
    exists i | 0 <= i < |xs| :: xs[i].coverage != NoCoverage
  }

  predicate AnyPartial(xs: seq<Assessment>) {
    exists i | 0 <= i < |xs| :: xs[i].coverage == PartialCoverage
  }

  predicate HasRequired(rules: seq<P.Rule>) {
    exists i | 0 <= i < |rules| :: rules[i].required
  }

  function Floored(s: Severity, floor: bool): Severity {
    if floor && s < WATCH then WATCH else s
  }

  /** Conflict first, then no evidence, then the worst resource, floored at Watch when
      required coverage is incomplete somewhere. */
  function Propose(xs: seq<Assessment>, rules: seq<P.Rule>, seenBefore: bool): H.Proposal {
    if AnyConflict(xs) then H.Proposal(CLEAR, CLEAR, false, Conflict)
    else if !AnyEvidence(xs) then H.Proposal(CLEAR, CLEAR, false, if seenBefore then Stale else Unknown)
    else
      var floor := HasRequired(rules) && AnyPartial(xs);
      H.Proposal(Floored(MaxUp(xs), floor), Floored(MaxDown(xs), floor), true, Unknown)
  }

  /** What every assessment the evaluator makes satisfies. */
  predicate Coherent(a: Assessment) {
    a.up <= a.down && (a.up != CLEAR ==> a.coverage != NoCoverage)
  }

  lemma {:induction false} MaxOrdered(xs: seq<Assessment>)
    requires forall i | 0 <= i < |xs| :: Coherent(xs[i])
    ensures MaxUp(xs) <= MaxDown(xs)
    ensures forall i | 0 <= i < |xs| ::
              xs[i].up <= MaxUp(xs) && (xs[i].coverage != NoCoverage ==> xs[i].down <= MaxDown(xs))
    ensures MaxUp(xs) != CLEAR ==> exists i :: 0 <= i < |xs| && xs[i].coverage != NoCoverage && xs[i].up == MaxUp(xs)
    decreases |xs|
  {
    if xs != [] {
      var front := xs[..|xs| - 1];
      assert forall i | 0 <= i < |front| :: front[i] == xs[i];
      MaxOrdered(front);
      if xs[|xs| - 1].coverage != NoCoverage && xs[|xs| - 1].up > MaxUp(front) {
        assert xs[|xs| - 1].up == MaxUp(xs);
      } else if MaxUp(xs) != CLEAR {
        var i :| 0 <= i < |front| && front[i].coverage != NoCoverage && front[i].up == MaxUp(front);
        assert xs[i].up == MaxUp(xs);
      }
    }
  }

  /** A proposal never asks for less on the way down than on the way up. */
  lemma {:induction false} DownwardNeverBelow(xs: seq<Assessment>, rules: seq<P.Rule>, seenBefore: bool)
    requires forall i | 0 <= i < |xs| :: Coherent(xs[i])
    ensures var p := Propose(xs, rules, seenBefore); p.upward <= p.downward
  {
    MaxOrdered(xs);
  }

  // ---- Propagation into the domain ------------------------------------------

  /** An induced severity raises a resource in both directions. */
  function Raised(a: Assessment, v: Severity): Assessment {
    a.(up := if v > a.up then v else a.up, down := if v > a.down then v else a.down)
  }

  /** `ys` is `xs` with some assessments raised, none above a level that is already
      some covered resource's own. */
  predicate RaisedWithin(xs: seq<Assessment>, ys: seq<Assessment>) {
    |xs| == |ys| && forall i | 0 <= i < |xs| :: RaisedBy(xs[i], ys[i], MaxUp(xs))
  }

  predicate RaisedBy(a: Assessment, b: Assessment, cap: Severity) {
    exists v: Severity | 0 <= v <= cap :: b == Raised(a, v)
  }

  lemma {:induction false} RaisedMax(xs: seq<Assessment>, ys: seq<Assessment>, up: Severity, down: Severity)
    requires |xs| == |ys| && up <= down && MaxUp(xs) <= up && MaxDown(xs) <= down
    requires forall i | 0 <= i < |xs| :: RaisedBy(xs[i], ys[i], up)
    ensures MaxUp(xs) <= MaxUp(ys) <= up && MaxDown(xs) <= MaxDown(ys) <= down
    decreases |xs|
  {
    if xs != [] {
      var n := |xs| - 1;
      RaisedIs(xs[n], ys[n], up);
      hide RaisedBy;
      var front, back := xs[..n], ys[..n];
      assert forall i | 0 <= i < n :: front[i] == xs[i] && back[i] == ys[i];
      RaisedMax(front, back, up, down);
    }
  }

  lemma {:induction false} RaisedIs(a: Assessment, b: Assessment, cap: Severity)
    requires RaisedBy(a, b, cap)
    ensures b.disputed == a.disputed && b.coverage == a.coverage
    ensures a.up <= b.up && (b.up <= a.up || b.up <= cap) && a.down <= b.down && (b.down <= a.down || b.down <= cap)
  {
  }

  /** Propagation never changes the domain's proposal: severities induced by resources
      of the domain cannot exceed the worst of them. */
  lemma {:induction false} RaisingChangesNothing(xs: seq<Assessment>, ys: seq<Assessment>, rules: seq<P.Rule>,
                                                 seenBefore: bool)
    requires (forall i | 0 <= i < |xs| :: Coherent(xs[i])) && RaisedWithin(xs, ys)
    ensures Propose(ys, rules, seenBefore) == Propose(xs, rules, seenBefore)
  {
    hide RaisedBy;
    MaxOrdered(xs);
    RaisedMax(xs, ys, MaxUp(xs), MaxDown(xs));
    forall i | 0 <= i < |xs|
      ensures ys[i].disputed == xs[i].disputed && ys[i].coverage == xs[i].coverage
    {
      RaisedIs(xs[i], ys[i], MaxUp(xs));
    }
  }

  // ---- Corroboration --------------------------------------------------------

  /** The metrics of the rules that read at or above a level. */
  function AgreeingMetrics(os: seq<Outcome>, rules: seq<P.Rule>, level: Severity): set<nat>
    requires |os| == |rules|
  {
    if os == [] then {}
    else
      AgreeingMetrics(os[..|os| - 1], rules[..|rules| - 1], level)
      + if ReadsUp(os[|os| - 1], level) then {rules[|rules| - 1].metric} else {}
  }

  lemma {:induction false} AgreeingAreReads(os: seq<Outcome>, rules: seq<P.Rule>, level: Severity)
    requires |os| == |rules|
    ensures forall m | m in AgreeingMetrics(os, rules, level) ::
              exists i :: 0 <= i < |os| && rules[i].metric == m && ReadsUp(os[i], level)
    decreases |os|
  {
    hide ReadsUp;
    if os != [] {
      var n := |os| - 1;
      AgreeingAreReads(os[..n], rules[..n], level);
      forall m | m in AgreeingMetrics(os, rules, level)
        ensures exists i :: 0 <= i < |os| && rules[i].metric == m && ReadsUp(os[i], level)
      {
        if m in AgreeingMetrics(os[..n], rules[..n], level) {
          var i :| 0 <= i < n && rules[..n][i].metric == m && ReadsUp(os[..n][i], level);
          assert rules[i].metric == m && ReadsUp(os[i], level);
        }
      }
    }
  }

  /** Distinct metrics make the count of agreeing rules a count of agreeing metrics. */
  lemma {:induction false} AgreeingCount(os: seq<Outcome>, rules: seq<P.Rule>, level: Severity)
    requires |os| == |rules| && P.MetricsDistinct(rules)
    ensures |AgreeingMetrics(os, rules, level)| == AgreeUp(os, level)
    decreases |os|
  {
    hide ReadsUp;
    if os != [] {
      var n := |os| - 1;
      AgreeingCount(os[..n], rules[..n], level);
      AgreeingAreReads(os[..n], rules[..n], level);
      assert rules[n].metric !in AgreeingMetrics(os[..n], rules[..n], level);
    }
  }

  /** A sample of the request that backs a level for a metric of a resource: admitted and
      passing every test, fresh for that metric, classified at or above the level, and
      the one whose reading was chosen for the metric at its queue. */
  predicate Backs(c: Context, ss: seq<Sample>, queues: seq<nat>, rule: P.Rule, resource: Id, level: Severity,
                  s: Sample) {
    && s in ss && s in Admitted(c, ss) && Passes(c, s) && s.resource == resource && s.queue in queues
    && ValueFrom(s.metrics, rule.metric).Some? && FreshFor(c, s, rule.metric)
    && P.Classify(rule, ValueFrom(s.metrics, rule.metric).value) >= level
    && Chosen(c, Admitted(c, ss), rule.metric, s)
  }

  /** The decision for the sample's key picked its reading. */
  predicate Chosen(c: Context, admitted: seq<Sample>, metric: nat, s: Sample)
    requires ValueFrom(s.metrics, metric).Some?
  {
    var d := DecisionAt(c, admitted, Key(s.resource, s.queue, metric));
    d.Some? && d.value.winner == ObservationOf(c, s, metric)
  }

  lemma {:induction false} WinnerBacks(c: Context, ss: seq<Sample>, queues: seq<nat>, resource: Id, rule: P.Rule,
                                       level: Severity)
    requires var p := PickOver(c, Admitted(c, ss), queues, resource, rule); p.Picked? && p.up >= level
    ensures exists s :: Backs(c, ss, queues, rule, resource, level, s)
  {
    hide Decide, Kept, Passes, FreshFor, P.ClassifyWithMargin, P.Classify, Bucket, PickOver;
    var admitted := Admitted(c, ss);
    PickedIsDecided(c, admitted, queues, resource, rule);
    var p := PickOver(c, admitted, queues, resource, rule);
    var k := Key(resource, p.queue, rule.metric);
    var b := Bucket(c, admitted, k);
    DecidedCameIn(c.policy.contradiction, b);
    BucketIsAdmitted(c, admitted, k);
    var s :| s in admitted && Reads(c, s, k) && p.observation == ObservationOf(c, s, k.metric);
    AdmittedPasses(c, ss);
    NoMargin(rule, p.observation.value);
    assert Key(resource, s.queue, rule.metric) == k;
    assert Backs(c, ss, queues, rule, resource, level, s);
  }

  lemma {:induction false} NoMargin(rule: P.Rule, value: nat)
    ensures P.ClassifyWithMargin(rule, value, 0) == P.Classify(rule, value)
  {
  }

  /** The level a resource's gated severity rests on. */
  lemma {:induction false} UpIsCorroborated(os: seq<Outcome>, p: P.Policy, level: Severity)
    requires |os| == |p.rules| && P.Valid(p) && level >= CONGESTED && Up(os, p.gates) >= level
    ensures AgreeUp(os, level) >= (if level == SEVERE then p.gates.severe else p.gates.congested)
    ensures AgreeUp(os, level) >= 1
  {
    AgreeMonotone(os, CONGESTED, SEVERE);
  }

  lemma {:induction false} AgreeMonotone(os: seq<Outcome>, low: Severity, high: Severity)
    requires low <= high
    ensures AgreeUp(os, high) <= AgreeUp(os, low)
    decreases |os|
  {
    if os != [] {
      AgreeMonotone(os[..|os| - 1], low, high);
    }
  }

  function Assessments(c: Context, admitted: seq<Sample>, queues: seq<nat>, resources: seq<Id>): (r: seq<Assessment>)
    ensures |r| == |resources|
    ensures forall i | 0 <= i < |resources| ::
              r[i] == Assess(Outcomes(c, admitted, queues, resources[i], c.policy.rules), c.policy)
  {
    seq(|resources|, i requires 0 <= i < |resources| => Assess(Outcomes(c, admitted, queues, resources[i],
        c.policy.rules), c.policy))
  }

  lemma {:induction false} AssessmentsCoherent(c: Context, admitted: seq<Sample>, queues: seq<nat>, resources: seq<Id>)
    ensures forall i | 0 <= i < |resources| :: Coherent(Assessments(c, admitted, queues, resources)[i])
  {
    hide Assess;
    forall i | 0 <= i < |resources|
      ensures Coherent(Assessments(c, admitted, queues, resources)[i])
    {
      UpNeedsRead(Outcomes(c, admitted, queues, resources[i], c.policy.rules), c.policy);
    }
  }

  /** What the samples of a request propose for the domain, without propagation. */
  function Proposal(c: Context, ss: seq<Sample>, queues: seq<nat>, seenBefore: bool): H.Proposal {
    Propose(Assessments(c, Admitted(c, ss), queues, c.resources), c.policy.rules, seenBefore)
  }

  /** Some rule on the metric has a sample behind it. */
  ghost predicate Backed(c: Context, ss: seq<Sample>, queues: seq<nat>, resource: Id, level: Severity, metric: nat) {
    exists i, s :: 0 <= i < |c.policy.rules| && c.policy.rules[i].metric == metric
      && Backs(c, ss, queues, c.policy.rules[i], resource, level, s)
  }

  lemma {:induction false} AgreeingBacked(c: Context, ss: seq<Sample>, queues: seq<nat>, resource: Id, level: Severity)
    ensures var os := Outcomes(c, Admitted(c, ss), queues, resource, c.policy.rules);
            forall m | m in AgreeingMetrics(os, c.policy.rules, level) :: Backed(c, ss, queues, resource, level, m)
  {
    hide Backs, ReadsUp, PickOver, Admitted, UnresolvedAt;
    var admitted, rules := Admitted(c, ss), c.policy.rules;
    var os := Outcomes(c, admitted, queues, resource, rules);
    AgreeingAreReads(os, rules, level);
    forall m | m in AgreeingMetrics(os, rules, level)
      ensures Backed(c, ss, queues, resource, level, m)
    {
      var k :| 0 <= k < |os| && rules[k].metric == m && ReadsUp(os[k], level);
      assert os[k] == OutcomeOf(c, admitted, queues, resource, rules[k]);
      ReadsUpIs(os[k], level);
      WinnerBacks(c, ss, queues, resource, rules[k], level);
    }
  }

  /** A domain proposal at a level comes from one resource's own gated severity. */
  lemma {:induction false} ProposedByOne(c: Context, ss: seq<Sample>, queues: seq<nat>, seenBefore: bool, level: Severity)
    returns (resource: Id)
    requires level >= CONGESTED
    requires var p := Proposal(c, ss, queues, seenBefore); p.hasValue && p.upward >= level
    ensures resource in c.resources
    ensures Up(Outcomes(c, Admitted(c, ss), queues, resource, c.policy.rules), c.policy.gates) >= level
  {
    hide Outcomes, Admitted, Up, Down;
    var xs := Assessments(c, Admitted(c, ss), queues, c.resources);
    AssessmentsCoherent(c, Admitted(c, ss), queues, c.resources);
    MaxOrdered(xs);
    var i :| 0 <= i < |xs| && xs[i].coverage != NoCoverage && xs[i].up == MaxUp(xs);
    resource := c.resources[i];
  }

  /** Corroboration, end to end. A domain proposal of Congested or Severe means that one
      resource has at least as many distinct metrics as the gate asks for, and at least
      one, each backed by the chosen reading of an admitted and fresh sample that
      classifies at or above that level. */
  lemma {:induction false} Corroborated(c: Context, ss: seq<Sample>, queues: seq<nat>, seenBefore: bool, level: Severity)
    returns (resource: Id, metrics: set<nat>)
    requires P.Valid(c.policy) && level >= CONGESTED
    requires var p := Proposal(c, ss, queues, seenBefore); p.hasValue && p.upward >= level
    ensures resource in c.resources
    ensures |metrics| >= 1 && |metrics| >= if level == SEVERE then c.policy.gates.severe else c.policy.gates.congested
    ensures forall m | m in metrics :: Backed(c, ss, queues, resource, level, m)
  {
    hide Outcomes, Backed, P.RuleOk, Admitted, Proposal, Up, AgreeingMetrics;
    resource := ProposedByOne(c, ss, queues, seenBefore, level);
    var os := Outcomes(c, Admitted(c, ss), queues, resource, c.policy.rules);
    UpIsCorroborated(os, c.policy, level);
    metrics := AgreeingMetrics(os, c.policy.rules, level);
    AgreeingCount(os, c.policy.rules, level);
    AgreeingBacked(c, ss, queues, resource, level);
  }

  lemma {:induction false} ReadsUpIs(o: Outcome, level: Severity)
    requires ReadsUp(o, level)
    ensures o.Read? && o.pick.Picked? && o.pick.up >= level
  {
  }
}
