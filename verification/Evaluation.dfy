/** The evaluation itself: the loops over samples, keys, rules and resources, with the
    propagation merge, refined to the specification of the proposal
    (src/eval/evaluator.cpp: `CongestionEvaluator::evaluate`). */
module Evaluation {
  import opened Words
  import opened Model
  import opened Contradiction
  import opened Evaluator
  import P = Policy
  import T = Topology
  import G = Propagation
  import H = Hysteresis

  // ---- Admission ------------------------------------------------------------

  /** The map holds exactly the non-empty buckets of the rule metrics. */
  ghost predicate HoldsBuckets(m: map<Key, seq<Observation>>, c: Context, admitted: seq<Sample>, metrics: seq<nat>) {
    forall k: Key ::
      (k in m <==> k.metric in metrics && Bucket(c, admitted, k) != [])
      && (k in m ==> m[k] == Bucket(c, admitted, k))
  }

  /** A map whose buckets have taken in sample `s` for the first metrics only. */
  ghost predicate TakenIn(m: map<Key, seq<Observation>>, c: Context, before: seq<Sample>, s: Sample,
                          metrics: seq<nat>, i: nat)
    requires i <= |metrics|
  {
    forall k: Key ::
      var b := Bucket(c, if k.metric in metrics[..i] then before + [s] else before, k);
      (k in m <==> k.metric in metrics && b != []) && (k in m ==> m[k] == b)
  }

  lemma {:induction false} BucketMore(c: Context, before: seq<Sample>, s: Sample, k: Key)
    ensures Bucket(c, before + [s], k)
         == var b := Bucket(c, before, k);
            if Reads(c, s, k) && |b| < MAX_PEERS then b + [ObservationOf(c, s, k.metric)] else b
  {
    assert (before + [s])[..|before|] == before;
  }

  predicate Unrepeated(metrics: seq<nat>) {
    forall i, j | 0 <= i < j < |metrics| :: metrics[i] != metrics[j]
  }

  /** Take one admitted sample into the buckets, metric by metric. */
  method TakeSample(m: map<Key, seq<Observation>>, c: Context, s: Sample, metrics: seq<nat>, ghost before: seq<Sample>)
    returns (r: map<Key, seq<Observation>>)
    requires HoldsBuckets(m, c, before, metrics) && Unrepeated(metrics)
    ensures HoldsBuckets(r, c, before + [s], metrics)
  {
    hide Bucket, ObservationOf, FreshFor, ValueFrom;
    r := m;
    for i := 0 to |metrics|
      invariant TakenIn(r, c, before, s, metrics, i)
    {
      var key := Key(s.resource, s.queue, metrics[i]);
      var bucket := if key in r then r[key] else [];
      BucketMore(c, before, s, key);
      assert metrics[i] !in metrics[..i];
      assert bucket == Bucket(c, before, key);
      ghost var was := r;
      if ValueFrom(s.metrics, metrics[i]).Some? && FreshFor(c, s, metrics[i]) && |bucket| < MAX_PEERS {
        r := r[key := bucket + [ObservationOf(c, s, metrics[i])]];
      }
      TakeOne(was, r, c, before, s, metrics, i, key);
    }
    assert metrics[..|metrics|] == metrics;
    forall k: Key
      ensures k.metric !in metrics ==> k !in r
    {
    }
  }

  lemma {:induction false} TakeOne(m: map<Key, seq<Observation>>, r: map<Key, seq<Observation>>, c: Context,
                                   before: seq<Sample>, s: Sample,
                metrics: seq<nat>, i: nat, key: Key)
    requires i < |metrics| && Unrepeated(metrics) && key == Key(s.resource, s.queue, metrics[i])
    requires TakenIn(m, c, before, s, metrics, i)
    requires var b := Bucket(c, before, key);
             r == if Reads(c, s, key) && |b| < MAX_PEERS then m[key := b + [ObservationOf(c, s, metrics[i])]] else m
    ensures TakenIn(r, c, before, s, metrics, i + 1)
  {
    hide Bucket, ObservationOf, FreshFor, ValueFrom;
    assert metrics[..i + 1] == metrics[..i] + [metrics[i]];
    forall k: Key
      ensures var b := Bucket(c, if k.metric in metrics[..i + 1] then before + [s] else before, k);
              (k in r <==> k.metric in metrics && b != []) && (k in r ==> r[k] == b)
    {
      BucketMore(c, before, s, k);
      assert metrics[i] !in metrics[..i];
    }
  }

  lemma {:induction false} AdmittedNext(c: Context, ss: seq<Sample>, i: nat)
    requires i < |ss|
    ensures Admitted(c, ss[..i + 1])
         == var a := Admitted(c, ss[..i]);
            if Passes(c, ss[i]) && ss[i].snapshot !in SnapshotsOf(a) then a + [ss[i]] else a
  {
    var t := ss[..i + 1];
    assert t[..|t| - 1] == ss[..i] && t[|t| - 1] == ss[i];
  }

  /** The sample loop: skip what does not pass, drop repeated contents, fill the buckets. */
  method AdmitSamples(c: Context, ss: seq<Sample>, metrics: seq<nat>) returns (readings: map<Key, seq<Observation>>)
    requires Unrepeated(metrics)
    ensures HoldsBuckets(readings, c, Admitted(c, ss), metrics)
  {
    hide HoldsBuckets, Admitted;
    readings := map[];
    var seen: set<nat> := {};
    ghost var admitted: seq<Sample> := [];
    EmptyBuckets(c, metrics);
    for i := 0 to |ss|
      invariant admitted == Admitted(c, ss[..i]) && seen == SnapshotsOf(admitted)
      invariant HoldsBuckets(readings, c, admitted, metrics)
    {
      var s := ss[i];
      AdmittedNext(c, ss, i);
      if s.resource == 0 || s.resource !in c.resources || s.heartbeat {
        continue;
      }
      if c.epoch != 0 && s.epoch != c.epoch {
        continue;
      }
      if c.known.Some? && s.resource !in c.known.value {
        continue;
      }
      if s.snapshot in seen {
        continue;
      }
      seen := seen + {s.snapshot};
      readings := TakeSample(readings, c, s, metrics, admitted);
      SnapshotsMore(admitted, s);
      admitted := admitted + [s];
    }
    assert ss[..|ss|] == ss;
  }

  lemma {:induction false} SnapshotsMore(a: seq<Sample>, s: Sample)
    ensures SnapshotsOf(a + [s]) == SnapshotsOf(a) + {s.snapshot}
  {
    forall x | x in SnapshotsOf(a)
      ensures x in SnapshotsOf(a + [s])
    {
      var y :| y in a && y.snapshot == x;
      assert y in a + [s];
    }
    assert s in a + [s];
  }

  lemma {:induction false} EmptyBuckets(c: Context, metrics: seq<nat>)
    ensures Admitted(c, []) == [] && SnapshotsOf([]) == {}
    ensures HoldsBuckets(map[], c, [], metrics)
  {
  }

  // ---- Decisions ------------------------------------------------------------

  ghost predicate HoldsDecisions(d: map<Key, Decision>, c: Context, admitted: seq<Sample>, metrics: seq<nat>) {
    forall k: Key ::
      (k in d <==> k.metric in metrics && DecisionAt(c, admitted, k).Some?)
      && (k in d ==> d[k] == DecisionAt(c, admitted, k).value)
  }

  /** Every key with readings is decided. */
  method DecideAll(c: Context, readings: map<Key, seq<Observation>>, metrics: seq<nat>, ghost admitted: seq<Sample>)
    returns (d: map<Key, Decision>)
    requires HoldsBuckets(readings, c, admitted, metrics)
    ensures HoldsDecisions(d, c, admitted, metrics)
  {
    hide Bucket, Decide, Kept;
    d := map[];
    var left := readings.Keys;
    while left != {}
      invariant left <= readings.Keys
      invariant forall k: Key :: k in d <==> k in readings && k !in left
      invariant forall k: Key :: k in d ==> DecisionAt(c, admitted, k) == Some(d[k])
    {
      var k :| k in left;
      var decision := Resolve(c.policy.contradiction, readings[k]);
      d := d[k := decision];
      left := left - {k};
    }
  }

  // ---- One resource ---------------------------------------------------------

  function Found(d: map<Key, Decision>, k: Key): Option<Decision> {
    if k in d then Some(d[k]) else None
  }

  /** The rule's outcome for a resource, queue by queue. */
  method ReadRule(c: Context, d: map<Key, Decision>, queues: seq<nat>, resource: Id, rule: P.Rule, metrics: seq<nat>,
                  ghost admitted: seq<Sample>) returns (o: Outcome)
    requires HoldsDecisions(d, c, admitted, metrics) && rule.metric in metrics
    ensures o == OutcomeOf(c, admitted, queues, resource, rule)
  {
    hide DecisionAt, PickNext;
    var disputed := false;
    var pick := Absent;
    for i := 0 to |queues|
      invariant disputed == UnresolvedAt(c, admitted, queues[..i], resource, rule.metric)
      invariant pick == PickOver(c, admitted, queues[..i], resource, rule)
    {
      var key := Key(resource, queues[i], rule.metric);
      var found := Found(d, key);
      assert found == DecisionAt(c, admitted, key);
      var t := queues[..i + 1];
      assert t[..|t| - 1] == queues[..i] && t[|t| - 1] == queues[i] && t == queues[..i] + [queues[i]];
      pick := PickNext(c, rule, queues[i], found, pick);
      if found.Some? && found.value.conflict && !found.value.resolved {
        disputed := true;
      }
      UnresolvedNext(c, admitted, queues, resource, rule.metric, i);
    }
    assert queues[..|queues|] == queues;
    o := if disputed then Disputed else if pick.Absent? then Silent else Read(pick);
  }

  lemma {:induction false} UnresolvedNext(c: Context, admitted: seq<Sample>, queues: seq<nat>, resource: Id,
                                          metric: nat, i: nat)
    requires i < |queues|
    ensures UnresolvedAt(c, admitted, queues[..i + 1], resource, metric)
       <==> UnresolvedAt(c, admitted, queues[..i], resource, metric)
            || var d := DecisionAt(c, admitted, Key(resource, queues[i], metric));
               d.Some? && d.value.conflict && !d.value.resolved
  {
    hide DecisionAt;
    assert queues[..i + 1] == queues[..i] + [queues[i]];
  }

  predicate CoverMetrics(rules: seq<P.Rule>, metrics: seq<nat>) {
    forall i | 0 <= i < |rules| :: rules[i].metric in metrics
  }

  /** The counters of the rule loop. */
  datatype Counters = Counters(
    upWatch: nat, upCongested: nat, upSevere: nat, downWatch: nat, downCongested: nat, downSevere: nat,
        strictest: Severity)

  function CountersOf(os: seq<Outcome>): Counters {
    Counters(AgreeUp(os, WATCH), AgreeUp(os, CONGESTED), AgreeUp(os, SEVERE),
             AgreeDown(os, WATCH), AgreeDown(os, CONGESTED), AgreeDown(os, SEVERE), StrictestDown(os))
  }

  /** Count one picked reading at every level it reaches. */
  method CountPick(n: Counters, up: Severity, down: Severity) returns (m: Counters)
    ensures m == Counters(n.upWatch + if up >= WATCH then 1 else 0, n.upCongested + if up >= CONGESTED then 1 else 0,
                          n.upSevere + if up >= SEVERE then 1 else 0, n.downWatch + if down >= WATCH then 1 else 0,
                          n.downCongested + if down >= CONGESTED then 1 else 0,
                              n.downSevere + if down >= SEVERE then 1 else 0,
                          if down > n.strictest then down else n.strictest)
  {
    m := n;
    if up >= WATCH {
      m := m.(upWatch := m.upWatch + 1);
    }
    if up >= CONGESTED {
      m := m.(upCongested := m.upCongested + 1);
    }
    if up >= SEVERE {
      m := m.(upSevere := m.upSevere + 1);
    }
    if down >= WATCH {
      m := m.(downWatch := m.downWatch + 1);
    }
    if down >= CONGESTED {
      m := m.(downCongested := m.downCongested + 1);
    }
    if down >= SEVERE {
      m := m.(downSevere := m.downSevere + 1);
    }
    if down > m.strictest {
      m := m.(strictest := down);
    }
  }

  /** The rule loop of one resource: its counters, gates and coverage. */
  method AssessResource(c: Context, d: map<Key, Decision>, queues: seq<nat>, resource: Id, metrics: seq<nat>,
                        ghost admitted: seq<Sample>) returns (a: Assessment)
    requires HoldsDecisions(d, c, admitted, metrics) && CoverMetrics(c.policy.rules, metrics)
    ensures a == Assess(Outcomes(c, admitted, queues, resource, c.policy.rules), c.policy)
  {
    hide HoldsDecisions, OutcomeOf, AgreeUp, AgreeDown, StrictestDown, AnyRead, AnyDisputed, RequiredRead;
    var rules := c.policy.rules;
    ghost var os := Outcomes(c, admitted, queues, resource, rules);
    var anyRead, disputed := false, false;
    var requiredTotal, requiredRead := 0, 0;
    var n := Counters(0, 0, 0, 0, 0, 0, CLEAR);
    CountNothing();
    assert os[..0] == [] && rules[..0] == [];
    for i := 0 to |rules|
      invariant n == CountersOf(os[..i])
      invariant anyRead == AnyRead(os[..i]) && disputed == AnyDisputed(os[..i])
      invariant requiredRead <= requiredTotal
      invariant requiredRead == requiredTotal <==> RequiredRead(os[..i], rules[..i])
    {
      var rule := rules[i];
      var o := ReadRule(c, d, queues, resource, rule, metrics, admitted);
      assert o == os[i];
      CountNext(os, rules, i);
      if rule.required {
        requiredTotal := requiredTotal + 1;
      }
      match o {
        case Disputed => disputed := true;
        case Silent =>
        case Read(pick) =>
          anyRead := true;
          if rule.required {
            requiredRead := requiredRead + 1;
          }
          if pick.Picked? {
            n := CountPick(n, pick.up, pick.down);
          }
      }
    }
    assert os[..|os|] == os && rules[..|rules|] == rules;
    var up := Gate(n.upWatch, n.upCongested, n.upSevere, c.policy.gates);
    var down := if c.policy.dwell.allMustAgree then n.strictest
                else Gate(n.downWatch, n.downCongested, n.downSevere, c.policy.gates);
    if down < up {
      down := up;
    }
    var coverage := if !anyRead then (if disputed then PartialCoverage else NoCoverage)
                    else if requiredRead == requiredTotal then FullCoverage else PartialCoverage;
    a := Assessment(up, down, disputed, coverage);
  }

  lemma {:induction false} CountNothing()
    ensures CountersOf([]) == Counters(0, 0, 0, 0, 0, 0, CLEAR)
    ensures !AnyRead([]) && !AnyDisputed([]) && RequiredRead([], [])
  {
  }

  lemma {:induction false} CountNext(os: seq<Outcome>, rules: seq<P.Rule>, i: nat)
    requires i < |os| == |rules|
    ensures os[..i + 1][..i] == os[..i] && os[..i + 1][i] == os[i]
    ensures var n := CountersOf(os[..i]);
            CountersOf(os[..i + 1]) ==
              if os[i].Read? && os[i].pick.Picked? then
                var up, down := os[i].pick.up, os[i].pick.down;
                Counters(n.upWatch + if up >= WATCH then 1 else 0, n.upCongested + if up >= CONGESTED then 1 else 0,
                         n.upSevere + if up >= SEVERE then 1 else 0, n.downWatch + if down >= WATCH then 1 else 0,
                         n.downCongested + if down >= CONGESTED then 1 else 0,
                             n.downSevere + if down >= SEVERE then 1 else 0,
                         if down > n.strictest then down else n.strictest)
              else n
    ensures AnyRead(os[..i + 1]) <==> AnyRead(os[..i]) || os[i].Read?
    ensures AnyDisputed(os[..i + 1]) <==> AnyDisputed(os[..i]) || os[i].Disputed?
    ensures RequiredRead(os[..i + 1], rules[..i + 1])
       <==> RequiredRead(os[..i], rules[..i]) && (rules[i].required ==> os[i].Read?)
  {
    var t, u := os[..i + 1], rules[..i + 1];
    assert t[..|t| - 1] == os[..i] && t[|t| - 1] == os[i];
    assert u[..|u| - 1] == rules[..i] && u[|u| - 1] == rules[i];
    AnyNext(os, i);
    RequiredNext(os, rules, i);
  }

  lemma {:induction false} AnyNext(os: seq<Outcome>, i: nat)
    requires i < |os|
    ensures AnyRead(os[..i + 1]) <==> AnyRead(os[..i]) || os[i].Read?
    ensures AnyDisputed(os[..i + 1]) <==> AnyDisputed(os[..i]) || os[i].Disputed?
  {
    var t, f := os[..i + 1], os[..i];
    assert forall k | 0 <= k < i :: t[k] == f[k];
    assert t[i] == os[i];
  }

  lemma {:induction false} RequiredNext(os: seq<Outcome>, rules: seq<P.Rule>, i: nat)
    requires i < |os| == |rules|
    ensures RequiredRead(os[..i + 1], rules[..i + 1])
       <==> RequiredRead(os[..i], rules[..i]) && (rules[i].required ==> os[i].Read?)
  {
    var t, f := os[..i + 1], os[..i];
    var u, g := rules[..i + 1], rules[..i];
    assert forall k | 0 <= k < i :: t[k] == f[k] && u[k] == g[k];
    assert t[i] == os[i] && u[i] == rules[i];
  }

  // ---- The proposal ---------------------------------------------------------

  /** The aggregation loop over the resources of the domain. */
  method Aggregate(xs: seq<Assessment>, rules: seq<P.Rule>, seenBefore: bool) returns (p: H.Proposal)
    ensures p == Propose(xs, rules, seenBefore)
  {
    var conflict, evidence, partial := false, false, false;
    var up, down := CLEAR, CLEAR;
    for i := 0 to |xs|
      invariant conflict == AnyConflict(xs[..i]) && evidence == AnyEvidence(xs[..i]) && partial == AnyPartial(xs[..i])
      invariant up == MaxUp(xs[..i]) && down == MaxDown(xs[..i])
    {
      var a := xs[i];
      AggregateNext(xs, i);
      if a.disputed {
        conflict := true;
      }
      if a.coverage == NoCoverage {
        continue;
      }
      evidence := true;
      if a.coverage != FullCoverage {
        partial := true;
      }
      if a.up > up {
        up := a.up;
      }
      if a.down > down {
        down := a.down;
      }
    }
    assert xs[..|xs|] == xs;
    if conflict {
      return H.Proposal(CLEAR, CLEAR, false, Conflict);
    }
    if !evidence {
      return H.Proposal(CLEAR, CLEAR, false, if seenBefore then Stale else Unknown);
    }
    if HasRequired(rules) && partial {
      if up < WATCH {
        up := WATCH;
      }
      if down < WATCH {
        down := WATCH;
      }
    }
    p := H.Proposal(up, down, true, Unknown);
  }

  lemma {:induction false} AggregateNext(xs: seq<Assessment>, i: nat)
    requires i < |xs|
    ensures MaxUp(xs[..i + 1]) == if xs[i].coverage != NoCoverage
        && xs[i].up > MaxUp(xs[..i]) then xs[i].up else MaxUp(xs[..i])
    ensures MaxDown(xs[..i + 1]) == if xs[i].coverage != NoCoverage
        && xs[i].down > MaxDown(xs[..i]) then xs[i].down else MaxDown(xs[..i])
    ensures AnyConflict(xs[..i + 1]) <==> AnyConflict(xs[..i]) || xs[i].disputed
    ensures AnyEvidence(xs[..i + 1]) <==> AnyEvidence(xs[..i]) || xs[i].coverage != NoCoverage
    ensures AnyPartial(xs[..i + 1]) <==> AnyPartial(xs[..i]) || xs[i].coverage == PartialCoverage
  {
    var t, f := xs[..i + 1], xs[..i];
    assert t[..|t| - 1] == f && t[|t| - 1] == xs[i];
    assert forall k | 0 <= k < i :: t[k] == f[k];
    assert t[i] == xs[i];
  }

  // ---- Propagation into the domain ------------------------------------------

  function SpreadPolicy(s: P.Spread): G.PropagationPolicy
    requires s.maxInduced <= SEVERE
  {
    G.PropagationPolicy(s.enabled, s.maxDepth, s.decayPpm, s.maxInduced, s.followLinks, s.followPaths, s.minPressure)
  }

  lemma {:induction false} RaisedTwice(a: Assessment, b: Assessment, v: Severity, cap: Severity)
    requires RaisedBy(a, b, cap) && v <= cap
    ensures RaisedBy(a, Raised(b, v), cap)
  {
    var u: Severity :| 0 <= u <= cap && b == Raised(a, u);
    var w: Severity := if u > v then u else v;
    assert Raised(b, v) == Raised(a, w);
  }

  lemma {:induction false} RaisedNone(a: Assessment, cap: Severity)
    ensures RaisedBy(a, a, cap)
  {
    assert a == Raised(a, CLEAR);
  }

  /** A resource's assessment raised by the edges that end at it. */
  function RaisedAt(a: Assessment, resource: Id, edges: seq<G.Edge>): Assessment
    decreases |edges|
  {
    if edges == [] then a
    else
      var b, e := RaisedAt(a, resource, edges[..|edges| - 1]), edges[|edges| - 1];
      if e.to == resource then Raised(b, e.induced) else b
  }

  function Merged(resources: seq<Id>, xs: seq<Assessment>, edges: seq<G.Edge>): seq<Assessment>
    requires |xs| == |resources|
  {
    seq(|xs|, i requires 0 <= i < |xs| => RaisedAt(xs[i], resources[i], edges))
  }

  lemma {:induction false} RaisedNext(a: Assessment, resource: Id, edges: seq<G.Edge>, n: nat)
    requires n < |edges|
    ensures RaisedAt(a, resource, edges[..n + 1])
         == var b := RaisedAt(a, resource, edges[..n]);
            if edges[n].to == resource then Raised(b, edges[n].induced) else b
  {
    assert edges[..n + 1][..n] == edges[..n] && edges[..n + 1][n] == edges[n];
  }

  lemma {:induction false} MergedWithin(resources: seq<Id>, xs: seq<Assessment>, edges: seq<G.Edge>)
    requires |xs| == |resources| && forall e | e in edges :: e.induced <= MaxUp(xs)
    ensures RaisedWithin(xs, Merged(resources, xs, edges))
  {
    hide RaisedBy, MaxUp;
    forall i | 0 <= i < |xs|
      ensures RaisedBy(xs[i], RaisedAt(xs[i], resources[i], edges), MaxUp(xs))
    {
      RaisedAtWithin(xs[i], resources[i], edges, MaxUp(xs));
    }
  }

  lemma {:induction false} RaisedAtWithin(a: Assessment, resource: Id, edges: seq<G.Edge>, cap: Severity)
    requires forall e | e in edges :: e.induced <= cap
    ensures RaisedBy(a, RaisedAt(a, resource, edges), cap)
    decreases |edges|
  {
    hide RaisedBy, Raised;
    if edges == [] {
      RaisedNone(a, cap);
    } else {
      var front, e := edges[..|edges| - 1], edges[|edges| - 1];
      assert e in edges && forall x | x in front :: x in edges;
      RaisedAtWithin(a, resource, front, cap);
      RaisedTwice(a, RaisedAt(a, resource, front), e.induced, cap);
    }
  }

  /** Merge the edges into the assessments of the domain's resources. */
  method MergeEdges(resources: seq<Id>, xs: seq<Assessment>, edges: seq<G.Edge>) returns (ys: seq<Assessment>)
    requires |xs| == |resources|
    ensures ys == Merged(resources, xs, edges)
  {
    hide Raised, RaisedAt;
    ys := xs;
    MergedNone(resources, xs);
    for n := 0 to |edges|
      invariant ys == Merged(resources, xs, edges[..n])
    {
      var e := edges[n];
      for i := 0 to |resources|
        invariant |ys| == |xs|
        invariant forall k | 0 <= k < |xs| ::
                    ys[k] == RaisedAt(xs[k], resources[k], edges[..if k < i then n + 1 else n])
      {
        RaisedNext(xs[i], resources[i], edges, n);
        if resources[i] == e.to {
          ys := ys[i := Raised(ys[i], e.induced)];
        }
      }
    }
    assert edges[..|edges|] == edges;
  }

  lemma {:induction false} MergedNone(resources: seq<Id>, xs: seq<Assessment>)
    requires |xs| == |resources|
    ensures Merged(resources, xs, []) == xs
  {
  }

  /** The domain's own resources above Clear. */
  function SourcesFrom(resources: seq<Id>, xs: seq<Assessment>): seq<G.Source>
    requires |xs| == |resources|
  {
    if xs == [] then []
    else
      var n := |xs| - 1;
      SourcesFrom(resources[..n], xs[..n]) + if xs[n].up != CLEAR then [G.Source(resources[n], xs[n].up)] else []
  }

  /** They are the sources. */
  method SourcesOf(resources: seq<Id>, xs: seq<Assessment>) returns (sources: seq<G.Source>)
    requires |xs| == |resources| && T.Increasing(resources)
    ensures sources == SourcesFrom(resources, xs) && G.DistinctResources(sources)
    ensures forall s | s in sources :: exists i :: 0 <= i < |xs| && xs[i].up == s.severity
  {
    sources := [];
    for i := 0 to |resources|
      invariant sources == SourcesFrom(resources[..i], xs[..i])
      invariant forall s | s in sources :: exists k :: 0 <= k < i && xs[k].up == s.severity && resources[k] == s.resource
      invariant G.DistinctResources(sources)
    {
      assert resources[..i + 1][..i] == resources[..i] && xs[..i + 1][..i] == xs[..i];
      if xs[i].up != CLEAR {
        sources := sources + [G.Source(resources[i], xs[i].up)];
      }
    }
    assert resources[..|resources|] == resources && xs[..|xs|] == xs;
  }

  /** The assessments after propagation: as they were, or merged with the edges reported of
      the record that the domain's own severities settle. */
  ghost predicate SpreadTo(snapshot: T.Snapshot, resources: seq<Id>, xs: seq<Assessment>, policy: P.Policy,
                           ys: seq<Assessment>)
    requires |xs| == |resources| && policy.spread.maxInduced <= SEVERE
  {
    var sources, spread := SourcesFrom(resources, xs), SpreadPolicy(policy.spread);
    if !policy.spread.enabled || policy.spread.maxDepth == 0 || sources == [] then ys == xs
    else
      exists best, out ::
        && G.Settled(G.GraphOf(snapshot, spread), spread, sources, best)
        && G.Reported(best, spread, policy.limits.explanations, out) && ys == Merged(resources, xs, out.edges)
  }

  /** A resource with an edge is raised by exactly the capped maximum pressure it receives,
      and one without is left alone. */
  lemma {:induction false} RaisedByPressure(a: Assessment, resource: Id, best: map<Id, G.Target>,
                                            spread: G.PropagationPolicy, maxEdges: nat, out: G.PropagationResult)
    requires G.Reported(best, spread, maxEdges, out)
    ensures RaisedAt(a, resource, out.edges)
         == if exists k :: 0 <= k < |out.edges| && out.edges[k].to == resource
            then (assert resource in best; Raised(a, G.Capped(best[resource].pressure, spread))) else a
    ensures !out.truncated && resource in best && G.Capped(best[resource].pressure, spread) != CLEAR ==>
              exists k :: 0 <= k < |out.edges| && out.edges[k].to == resource
  {
    hide G.Capped, Raised;
    var es := out.edges;
    forall i, j | 0 <= i < j < |es|
      ensures es[i].to < es[j].to
    {
    }
    RaisedOnce(a, resource, es);
    if !out.truncated && resource in best && G.Capped(best[resource].pressure, spread) != CLEAR {
      assert (resource, G.Capped(best[resource].pressure, spread)) in out.induced;
      var k :| 0 <= k < |out.induced| && out.induced[k].0 == resource;
      assert es[k].to == resource;
    }
  }

  lemma {:induction false} RaisedOnce(a: Assessment, resource: Id, edges: seq<G.Edge>)
    requires forall i, j | 0 <= i < j < |edges| :: edges[i].to < edges[j].to
    ensures forall k | 0 <= k < |edges| && edges[k].to == resource ::
              RaisedAt(a, resource, edges) == Raised(a, edges[k].induced)
    ensures (forall k | 0 <= k < |edges| :: edges[k].to != resource) ==> RaisedAt(a, resource, edges) == a
    decreases |edges|
  {
    hide Raised;
    if edges != [] {
      var front := edges[..|edges| - 1];
      assert forall i | 0 <= i < |front| :: front[i] == edges[i];
      RaisedOnce(a, resource, front);
    }
  }

  /** With a topology and propagation on, raise the assessments; none above what the
      domain already shows. */
  method Spread(t: T.TopologyIndex, resources: seq<Id>, xs: seq<Assessment>,
                policy: P.Policy) returns (ys: seq<Assessment>)
    requires t.Indexed() && P.Valid(policy) && |xs| == |resources| && T.Increasing(resources)
    requires forall i | 0 <= i < |xs| :: Coherent(xs[i])
    ensures SpreadTo(t.snapshot, resources, xs, policy, ys) && RaisedWithin(xs, ys)
  {
    hide RaisedWithin, G.Settled, G.Reported, G.KeepsOne, P.RuleOk, Merged, SourcesFrom, MaxUp;
    MaxOrdered(xs);
    MergedNone(resources, xs);
    var sources := SourcesOf(resources, xs);
    if !policy.spread.enabled || sources == [] {
      ys := MergeEdges(resources, xs, []);
      MergedWithin(resources, xs, []);
      return;
    }
    var spread := SpreadPolicy(policy.spread);
    var result := G.Propagate(t, sources, spread, policy.limits.explanations);
    assert result.Some?;
    var edges := result.value.edges;
    if policy.spread.maxDepth != 0 {
      ghost var g := G.GraphOf(t.snapshot, spread);
      ghost var best :| G.Settled(g, spread, sources, best) && G.Reported(best, spread, policy.limits.explanations,
          result.value);
      EdgeBounded(g, spread, sources, best, policy.limits.explanations, result.value, xs);
    }
    ys := MergeEdges(resources, xs, edges);
    MergedWithin(resources, xs, edges);
  }

  lemma {:induction false} EdgeBounded(g: G.Graph, spread: G.PropagationPolicy, sources: seq<G.Source>, best: map<Id,
                                       G.Target>,
                    maxEdges: nat, r: G.PropagationResult, xs: seq<Assessment>)
    requires spread.decayPpm <= G.FULL && G.Settled(g, spread, sources, best) && G.Reported(best, spread, maxEdges, r)
    requires forall s | s in sources :: exists i :: 0 <= i < |xs| && xs[i].up == s.severity
    requires forall i | 0 <= i < |xs| :: xs[i].up <= MaxUp(xs)
    ensures forall e | e in r.edges :: e.induced <= MaxUp(xs)
  {
    hide G.Settled, G.Reported, MaxUp;
    forall e | e in r.edges
      ensures e.induced <= MaxUp(xs)
    {
      var i :| 0 <= i < |r.edges| && r.edges[i] == e;
      G.InducedBelowSource(g, spread, sources, best, maxEdges, r, i);
      var s :| s in sources && e.induced <= s.severity;
      var k :| 0 <= k < |xs| && xs[k].up == s.severity;
    }
  }

  // ---- The evaluation -------------------------------------------------------

  datatype Refusal = BadRequest | TooManySamples | NoResources | TooManyResources | NotMember

  datatype Evaluated = Evaluated(
    proposal: H.Proposal, assessments: seq<Assessment>, machine: H.Machine, result: H.Result, authoritative: bool)

  datatype Request = Request(domain: Id, now: Tick, only: Id, samples: seq<Sample>, epoch: nat, maxSamples: nat)

  /** The resources an evaluation covers, or why it covers none. */
  datatype Scope = Scope(resources: seq<Id>) | NoScope(why: Refusal)

  function Narrowed(rs: seq<Id>, only: Id, bound: nat): Scope {
    if |rs| > bound then NoScope(TooManyResources)
    else if only != 0 then (if only in rs then Scope([only]) else NoScope(NotMember))
    else if rs == [] then NoScope(NoResources)
    else Scope(rs)
  }

  /** From the domain's members, or the samples' resources when there is no topology. */
  function ScopeFrom(indexed: bool, full: seq<Id>, only: Id, bound: nat): Scope {
    if indexed && full == [] then NoScope(NoResources) else Narrowed(full, only, bound)
  }

  function IdsIn(rs: seq<T.Resource>, domain: Id): (ids: seq<Id>)
    ensures forall x :: x in ids <==> x in T.DomainMembers(rs, domain)
  {
    if rs == [] then []
    else
      var front, r := IdsIn(rs[..|rs| - 1], domain), rs[|rs| - 1];
      assert rs == rs[..|rs| - 1] + [r];
      assert T.DomainMembers(rs, domain)
          == T.DomainMembers(rs[..|rs| - 1], domain) + (if r.domain == domain then {r.id} else {}) by {
        MembersMore(rs[..|rs| - 1], r, domain);
      }
      if r.domain == domain then front + [r.id] else front
  }

  lemma {:induction false} MembersMore(rs: seq<T.Resource>, r: T.Resource, domain: Id)
    ensures T.DomainMembers(rs + [r], domain) == T.DomainMembers(rs, domain) + if r.domain == domain then {r.id} else {}
  {
    forall x | x in T.DomainMembers(rs, domain)
      ensures x in T.DomainMembers(rs + [r], domain)
    {
      var y :| y in rs && y.domain == domain && y.id == x;
      assert y in rs + [r];
    }
    assert r in rs + [r];
  }

  function SampledIds(ss: seq<Sample>): seq<Id> {
    if ss == [] then []
    else SampledIds(ss[..|ss| - 1]) + if ss[|ss| - 1].resource != 0 then [ss[|ss| - 1].resource] else []
  }

  function QueueIds(ss: seq<Sample>): seq<nat> {
    if ss == [] then [] else QueueIds(ss[..|ss| - 1]) + [ss[|ss| - 1].queue]
  }

  /** The resources an evaluation could cover, sorted and once each: the domain's members,
      or without a topology the resources the samples name. */
  function Candidates(topology: Option<T.Snapshot>, q: Request): seq<Id> {
    match topology
    case Some(s) => T.Unique(T.Sort(IdsIn(s.resources, q.domain)))
    case None => T.Unique(T.Sort(SampledIds(q.samples)))
  }

  function ScopeIn(topology: Option<T.Snapshot>, q: Request, policy: P.Policy): Scope {
    ScopeFrom(topology.Some?, Candidates(topology, q), q.only, policy.limits.resourcesPerDomain)
  }

  function KnownIds(s: T.Snapshot): set<Id> {
    set r | r in s.resources :: r.id
  }

  function ContextIn(topology: Option<T.Snapshot>, q: Request, policy: P.Policy, resources: seq<Id>): Context {
    Context(policy, resources,
        match topology case None => None case Some(s) => Some(KnownIds(s)), q.epoch, q.now)
  }

  function Queues(ss: seq<Sample>): seq<nat> {
    T.Unique(T.Sort(QueueIds(ss)))
  }

  datatype Answer = Answer(proposal: H.Proposal, machine: H.Machine, result: H.Result, authoritative: bool)

  /** What an evaluation answers: the proposal its samples make, without propagation, and
      one hysteresis step on it. */
  function AnswerOf(topology: Option<T.Snapshot>, q: Request, policy: P.Policy, prior: H.Machine): Option<Answer> {
    var scope := ScopeIn(topology, q, policy);
    if q.domain == 0 || q.now == NO_TICK || |q.samples| > q.maxSamples || scope.NoScope? then None
    else
      var c := ContextIn(topology, q, policy, scope.resources);
      var p := Proposal(c, q.samples, Queues(q.samples), prior.lastAuthoritative != NO_TICK);
      var (stepped, result) := H.Step(prior, p, H.RulesOf(policy), q.now);
      var machine := stepped.(lastEvaluated := q.now);
      Some(Answer(p, machine, result, Authoritatively(machine, p)))
  }

  function TopologyOf(t: T.TopologyIndex?): Option<T.Snapshot> {
    if t == null then None else Some(t.snapshot)
  }

  lemma {:induction false} MembersListed(rs: seq<T.Resource>, domain: Id, members: seq<Id>)
    requires T.Lists(members, T.DomainMembers(rs, domain))
    ensures members == T.Unique(T.Sort(IdsIn(rs, domain)))
  {
    hide T.Sort, T.Unique, IdsIn, T.DomainMembers;
    T.ListsUnique(members, T.Unique(T.Sort(IdsIn(rs, domain))), T.DomainMembers(rs, domain));
  }

  lemma {:induction false} NarrowedIncreasing(rs: seq<Id>, only: Id, bound: nat)
    requires T.Increasing(rs)
    ensures var s := Narrowed(rs, only, bound); s.Scope? ==> T.Increasing(s.resources) && s.resources != []
  {
  }

  method ScopeOf(t: T.TopologyIndex?, q: Request, policy: P.Policy) returns (scope: Scope)
    requires t != null ==> t.Indexed()
    ensures scope == ScopeIn(TopologyOf(t), q, policy)
    ensures scope.Scope? ==> T.Increasing(scope.resources) && scope.resources != []
  {
    hide T.Sort, T.Unique, T.Increasing, T.Lists, T.DomainMembers, Narrowed, IdsIn;
    var bound := policy.limits.resourcesPerDomain;
    if t != null {
      var members := t.DomainResources(q.domain);
      MembersListed(t.snapshot.resources, q.domain, members);
      if members == [] {
        return NoScope(NoResources);
      }
      NarrowedIncreasing(members, q.only, bound);
      return Narrowed(members, q.only, bound);
    }
    var ids := SampledResources(q.samples);
    NarrowedIncreasing(T.Unique(T.Sort(ids)), q.only, bound);
    scope := Narrowed(T.Unique(T.Sort(ids)), q.only, bound);
  }

  method SampledResources(ss: seq<Sample>) returns (ids: seq<Id>)
    ensures ids == SampledIds(ss)
  {
    ids := [];
    for i := 0 to |ss|
      invariant ids == SampledIds(ss[..i])
    {
      assert ss[..i + 1][..i] == ss[..i];
      if ss[i].resource != 0 {
        ids := ids + [ss[i].resource];
      }
    }
    assert ss[..|ss|] == ss;
  }

  method QueuesOf(ss: seq<Sample>) returns (queues: seq<nat>)
    ensures queues == Queues(ss)
  {
    hide T.Sort, T.Unique;
    var all: seq<nat> := [];
    for i := 0 to |ss|
      invariant all == QueueIds(ss[..i])
    {
      assert ss[..i + 1][..i] == ss[..i];
      all := all + [ss[i].queue];
    }
    assert ss[..|ss|] == ss;
    queues := T.Unique(T.Sort(all));
  }

  /** Every queue a sample names is among the queues looked at. */
  lemma {:induction false} QueuesCover(ss: seq<Sample>)
    ensures forall s | s in ss :: s.queue in QueueIds(ss) && s.queue in Queues(ss)
    decreases |ss|
  {
    hide T.Sort, T.Unique;
    if ss != [] {
      QueuesCover(ss[..|ss| - 1]);
      assert ss == ss[..|ss| - 1] + [ss[|ss| - 1]];
    }
  }

  method RuleMetrics(rules: seq<P.Rule>) returns (metrics: seq<nat>)
    ensures Unrepeated(metrics) && CoverMetrics(rules, metrics)
  {
    var all: seq<nat> := [];
    for i := 0 to |rules|
      invariant forall k | 0 <= k < i :: rules[k].metric in all
    {
      all := all + [rules[i].metric];
    }
    metrics := T.Unique(T.Sort(all));
  }

  method ContextOf(t: T.TopologyIndex?, q: Request, policy: P.Policy, resources: seq<Id>) returns (c: Context)
    requires t != null ==> t.Indexed()
    ensures c == ContextIn(TopologyOf(t), q, policy, resources)
  {
    hide KnownIds, P.Valid;
    c := Context(policy, resources, if t == null then None else Some(KnownIds(t.snapshot)),
        q.epoch, q.now);
  }

  function Authoritatively(m: H.Machine, p: H.Proposal): bool {
    Authoritative(m.state) && !m.requiresRevalidation && p.hasValue
  }

  /** The assessments an evaluation reports: what its samples say, spread over the topology. */
  ghost predicate Reports(topology: Option<T.Snapshot>, q: Request, policy: P.Policy, ys: seq<Assessment>)
    requires policy.spread.maxInduced <= SEVERE
  {
    var scope := ScopeIn(topology, q, policy);
    && scope.Scope?
    && var c := ContextIn(topology, q, policy, scope.resources);
    && var xs := Assessments(c, Admitted(c, q.samples), Queues(q.samples), scope.resources);
    match topology
    case None => ys == xs
    case Some(s) => SpreadTo(s, scope.resources, xs, policy, ys)
  }

  /** `CongestionEvaluator::evaluate`. The proposal, propagation included, is the one the
      samples make without it; its downward severity is never below its upward one; the
      machine takes one hysteresis step on it, and the outcome is authoritative only on a
      proposal with a value. */
  method Evaluate(t: T.TopologyIndex?, q: Request, policy: P.Policy, prior: H.Machine)
    returns (r: Option<Evaluated>)
    requires (t != null ==> t.Indexed()) && P.Valid(policy)
    ensures r.None? <==> AnswerOf(TopologyOf(t), q, policy, prior).None?
    ensures r.Some? ==>
              && Answer(r.value.proposal, r.value.machine, r.value.result, r.value.authoritative)
                 == AnswerOf(TopologyOf(t), q, policy, prior).value
              && r.value.proposal.upward <= r.value.proposal.downward
              && Reports(TopologyOf(t), q, policy, r.value.assessments)
  {
    hide HoldsBuckets, HoldsDecisions, H.Step, Assess, Propose, Admitted, RaisedWithin, ScopeIn, Queues, SpreadTo,
        ContextIn, P.RuleOk, P.MetricsDistinct, P.InterventionOk;
    if q.domain == 0 || q.now == NO_TICK || |q.samples| > q.maxSamples {
      return None;
    }
    var scope := ScopeOf(t, q, policy);
    if scope.NoScope? {
      return None;
    }
    var resources := scope.resources;
    var context := ContextOf(t, q, policy, resources);
    ContextHolds(TopologyOf(t), q, policy, resources);
    var metrics := RuleMetrics(policy.rules);
    var readings := AdmitSamples(context, q.samples, metrics);
    ghost var admitted := Admitted(context, q.samples);
    var decisions := DecideAll(context, readings, metrics, admitted);
    var queues := QueuesOf(q.samples);
    var xs := AssessAll(context, decisions, queues, resources, metrics, admitted);
    AssessmentsCoherent(context, admitted, queues, resources);
    var ys;
    if t != null {
      ys := Spread(t, resources, xs, policy);
    } else {
      ys := MergeEdges(resources, xs, []);
      MergedNone(resources, xs);
      MergedWithin(resources, xs, []);
    }
    var seenBefore := prior.lastAuthoritative != NO_TICK;
    RaisingChangesNothing(xs, ys, policy.rules, seenBefore);
    DownwardNeverBelow(xs, policy.rules, seenBefore);
    var proposal := Aggregate(ys, policy.rules, seenBefore);
    var (stepped, result) := H.Step(prior, proposal, H.RulesOf(policy), q.now);
    var machine := stepped.(lastEvaluated := q.now);
    r := Some(Evaluated(proposal, ys, machine, result, Authoritatively(machine, proposal)));
  }

  lemma {:induction false} ContextHolds(topology: Option<T.Snapshot>, q: Request, policy: P.Policy, resources: seq<Id>)
    ensures var c := ContextIn(topology, q, policy, resources); c.policy == policy && c.resources == resources
  {
  }

  method AssessAll(c: Context, d: map<Key, Decision>, queues: seq<nat>, resources: seq<Id>, metrics: seq<nat>,
                   ghost admitted: seq<Sample>) returns (xs: seq<Assessment>)
    requires HoldsDecisions(d, c, admitted, metrics) && CoverMetrics(c.policy.rules, metrics)
    ensures xs == Assessments(c, admitted, queues, resources)
  {
    hide HoldsDecisions, Assess, Outcomes;
    xs := [];
    for i := 0 to |resources|
      invariant |xs| == i
      invariant forall k | 0 <= k < i :: xs[k] == Assessments(c, admitted, queues, resources)[k]
    {
      var a := AssessResource(c, d, queues, resources[i], metrics, admitted);
      xs := xs + [a];
    }
  }
}
