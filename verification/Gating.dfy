/** What a proposal means, both ways: when it is Conflict, when it has a value, and which
    levels it reaches, said of the readings kept under each key, the thresholds and the
    gates of the policy (src/eval/evaluator.cpp). */
module Gating {
  import opened Words
  import opened Model
  import opened Contradiction
  import opened Evaluator
  import P = Policy
  import E = Evidence
  import H = Hysteresis
  import T = Topology
  import W = Evaluation
  import A = Arrival

  // ---- Which resources are looked at ----------------------------------------

  /** The domain's resources, or without a topology those the samples name. */
  function Named(topology: Option<T.Snapshot>, q: W.Request): set<Id> {
    match topology
    case Some(t) => set r | r in t.resources && r.domain == q.domain :: r.id
    case None => set s | s in q.samples && s.resource != 0 :: s.resource
  }

  lemma {:induction false} IncreasingCount(rs: seq<Id>, ids: set<Id>)
    requires T.Increasing(rs) && forall x :: x in rs <==> x in ids
    ensures |rs| == |ids|
    decreases |rs|
  {
    if rs == [] {
      assert ids == {};
    } else {
      var front, last := rs[..|rs| - 1], rs[|rs| - 1];
      assert rs == front + [last];
      assert last in ids && last !in front;
      IncreasingCount(front, ids - {last});
    }
  }

  lemma {:induction false} NamedIs(topology: Option<T.Snapshot>, q: W.Request)
    ensures var rs := W.Candidates(topology, q);
            T.Increasing(rs) && (forall x :: x in rs <==> x in Named(topology, q)) && |rs| == |Named(topology, q)|
  {
    hide T.Sort, T.Unique, T.Increasing;
    A.SampledAre(q.samples);
    IncreasingCount(W.Candidates(topology, q), Named(topology, q));
  }

  /** The scope, both ways: an evaluation has one exactly when the resources named are some and
      within the bound, and the one asked for, if any, is among them; it is then all of
      them, or that one, in order. */
  lemma {:induction false} ScopeExact(topology: Option<T.Snapshot>, q: W.Request, policy: P.Policy)
    ensures var s, ids, bound := W.ScopeIn(topology, q, policy), Named(topology, q), policy.limits.resourcesPerDomain;
            && (s.Scope? <==> ids != {} && |ids| <= bound && (q.only != 0 ==> q.only in ids))
            && (s.Scope? ==>
                  && T.Increasing(s.resources)
                  && forall r :: r in s.resources <==> r in ids && (q.only == 0 || r == q.only))
            && (s == W.NoScope(W.TooManyResources) <==> |ids| > bound)
            && (s == W.NoScope(W.NotMember) <==>
                  |ids| <= bound && q.only != 0 && q.only !in ids && (topology.Some? ==> ids != {}))
  {
    hide W.Candidates, Named;
    NamedIs(topology, q);
    var rs := W.Candidates(topology, q);
    assert rs == [] ==> Named(topology, q) == {};
    assert rs != [] ==> rs[0] in Named(topology, q);
  }

  // ---- Which samples have a say ---------------------------------------------

  /** `o` is what a sample says of a rule's metric at a queue: the sample names a resource
      in scope, is of the context's epoch and no heartbeat, was observed within the skew
      and the rule's age bound, and carries the metric. */
  predicate Says(c: Context, s: Sample, rule: P.Rule, resource: Id, queue: nat, o: Observation) {
    && s.resource == resource && s.queue == queue && resource != 0 && resource in c.resources && !s.heartbeat
    && (c.epoch != 0 ==> s.epoch == c.epoch)
    && (c.known.Some? ==> resource in c.known.value)
    && s.observed <= c.now + c.policy.freshness.maxFutureSkew
    && c.now <= s.observed + (if rule.maxAge != 0 then rule.maxAge else c.policy.freshness.defaultMaxAge)
    && FirstValue(s.metrics, rule.metric, o.value)
    && o.publisher == s.publisher && o.generation == s.generation && o.degraded == s.degraded && o.snapshot == s.snapshot
    && o.observed == (if s.observed <= c.now then s.observed else c.now)
    && o.future == (s.observed > c.now)
  }

  /** The first entry of the kind has the value; a metric set has no second one. */
  predicate FirstValue(rs: seq<E.Reading>, metric: nat, value: nat) {
    exists i :: 0 <= i < |rs| && rs[i] == E.Reading(metric, value) && forall j | 0 <= j < i :: rs[j].kind != metric
  }

  lemma {:induction false} ValueMeans(rs: seq<E.Reading>, metric: nat, value: nat)
    ensures ValueFrom(rs, metric) == Some(value) <==> FirstValue(rs, metric, value)
  {
    if rs != [] {
      ValueMeans(rs[1..], metric, value);
      if rs[0].kind == metric {
        assert ValueFrom(rs, metric) == Some(value) ==> rs[0] == E.Reading(metric, value);
      } else {
        if FirstValue(rs, metric, value) {
          var i :| 0 <= i < |rs| && rs[i] == E.Reading(metric, value) && forall j | 0 <= j < i :: rs[j].kind != metric;
          assert rs[1..][i - 1] == rs[i];
          assert forall j | 0 <= j < i - 1 :: rs[1..][j] == rs[j + 1];
        }
        if FirstValue(rs[1..], metric, value) {
          var i :| 0 <= i < |rs[1..]| && rs[1..][i] == E.Reading(metric, value)
              && forall j | 0 <= j < i :: rs[1..][j].kind != metric;
          assert rs[i + 1] == E.Reading(metric, value);
          forall j | 0 <= j < i + 1
            ensures rs[j].kind != metric
          {
            if j > 0 {
              assert rs[1..][j - 1] == rs[j];
            }
          }
        }
      }
    }
  }

  lemma {:induction false} SaysMeans(c: Context, s: Sample, rule: P.Rule, resource: Id, queue: nat, o: Observation)
    requires rule in c.policy.rules && P.MetricsDistinct(c.policy.rules)
    ensures Says(c, s, rule, resource, queue, o)
       <==> Passes(c, s) && Reads(c, s, Key(resource, queue, rule.metric)) && o == ObservationOf(c, s, rule.metric)
  {
    hide ValueFrom, FirstValue;
    ValueMeans(s.metrics, rule.metric, o.value);
    if ValueFrom(s.metrics, rule.metric).Some? {
      ValueMeans(s.metrics, rule.metric, ValueFrom(s.metrics, rule.metric).value);
    }
    P.MaxAgeMeans(c.policy.rules, rule.metric, c.policy.freshness.defaultMaxAge);
    assert rule.maxAge == 0 ==> forall r | r in c.policy.rules && r.metric == rule.metric :: r == rule;
    hide P.MaxAgeFrom;
  }

  /** Below the peer bound no reader of a key is left out. */
  lemma {:induction false} BucketHolds(c: Context, a: seq<Sample>, k: Key)
    requires |Bucket(c, a, k)| < MAX_PEERS
    ensures forall s | s in a && Reads(c, s, k) :: ObservationOf(c, s, k.metric) in Bucket(c, a, k)
    decreases |a|
  {
    hide ObservationOf, FreshFor, ValueFrom;
    if a != [] {
      var front := a[..|a| - 1];
      assert a == front + [a[|a| - 1]];
      BucketHolds(c, front, k);
    }
  }

  /** Some sample of the request passes and none of its content passed before it. */
  ghost predicate Leads(c: Context, ss: seq<Sample>, s: Sample) {
    exists i :: 0 <= i < |ss| && ss[i] == s && Passes(c, s) && Unheard(c, ss[..i], s.snapshot)
  }

  lemma {:induction false} LeadsMore(c: Context, front: seq<Sample>, last: Sample, s: Sample)
    ensures Leads(c, front + [last], s) <==>
              Leads(c, front, s) || (s == last && Passes(c, s) && Unheard(c, front, s.snapshot))
  {
    hide Passes, Unheard;
    var ss := front + [last];
    assert ss[..|front|] == front;
    assert forall i | 0 <= i < |front| :: front[..i] == ss[..i];
    if Leads(c, front, s) {
      var i :| 0 <= i < |front| && front[i] == s && Passes(c, s) && Unheard(c, front[..i], s.snapshot);
      assert ss[i] == s && Unheard(c, ss[..i], s.snapshot);
    }
    if s == last && Passes(c, s) && Unheard(c, front, s.snapshot) {
      assert ss[|front|] == s && Unheard(c, ss[..|front|], s.snapshot);
    }
    if Leads(c, ss, s) {
      var i :| 0 <= i < |ss| && ss[i] == s && Passes(c, s) && Unheard(c, ss[..i], s.snapshot);
      if i < |front| {
        assert front[i] == s && Unheard(c, front[..i], s.snapshot);
      }
    }
  }

  lemma {:induction false} UnheardMore(c: Context, ss: seq<Sample>, n: nat)
    ensures if ss == [] then Unheard(c, ss, n)
            else var last := ss[|ss| - 1];
              Unheard(c, ss, n) <==> Unheard(c, ss[..|ss| - 1], n) && !(Passes(c, last) && last.snapshot == n)
  {
    hide Passes;
    if ss != [] {
      assert ss == ss[..|ss| - 1] + [ss[|ss| - 1]];
    }
  }

  lemma {:induction false} NoneLeads(c: Context, s: Sample)
    ensures !Leads(c, [], s)
  {
  }

  lemma {:induction false} LeadsIsHeard(c: Context, ss: seq<Sample>, s: Sample)
    requires Leads(c, ss, s)
    ensures s in ss && Passes(c, s) && !Unheard(c, ss, s.snapshot)
  {
    hide Passes;
  }

  /** The admitted samples are exactly those: of each content the first that passes. */
  lemma {:induction false} AdmittedExact(c: Context, ss: seq<Sample>)
    ensures forall s :: s in Admitted(c, ss) <==> Leads(c, ss, s)
    ensures forall n :: n in SnapshotsOf(Admitted(c, ss)) <==> !Unheard(c, ss, n)
    decreases |ss|
  {
    hide Passes, Leads, Unheard;
    if ss == [] {
      forall s
        ensures !Leads(c, [], s)
      {
        NoneLeads(c, s);
      }
      forall n
        ensures Unheard(c, [], n)
      {
        UnheardMore(c, [], n);
      }
    } else {
      var front, last := ss[..|ss| - 1], ss[|ss| - 1];
      assert ss == front + [last];
      AdmittedExact(c, front);
      forall s
        ensures Leads(c, ss, s) <==> Leads(c, front, s) || (s == last && Passes(c, s) && Unheard(c, front, s.snapshot))
      {
        LeadsMore(c, front, last, s);
      }
      forall n
        ensures Unheard(c, ss, n) <==> Unheard(c, front, n) && !(Passes(c, last) && last.snapshot == n)
      {
        UnheardMore(c, ss, n);
      }
    }
  }

  /** No passing sample has the content. */
  predicate Unheard(c: Context, ss: seq<Sample>, snapshot: nat) {
    forall s | s in ss :: Passes(c, s) ==> s.snapshot != snapshot
  }

  /** The readings under a key of a rule are exactly what the request's samples say there, as
      long as identities name contents and the key stays below the peer bound. */
  lemma {:induction false} ReadingsExact(c: Context, ss: seq<Sample>, rule: P.Rule, resource: Id, queue: nat,
                                         o: Observation)
    requires rule in c.policy.rules && P.MetricsDistinct(c.policy.rules)
    requires forall s, t | s in ss && t in ss && s.snapshot == t.snapshot :: s == t
    requires |Bucket(c, Admitted(c, ss), Key(resource, queue, rule.metric))| < MAX_PEERS
    ensures o in Bucket(c, Admitted(c, ss), Key(resource, queue, rule.metric))
       <==> exists s :: s in ss && Says(c, s, rule, resource, queue, o)
  {
    hide Bucket, Passes, FreshFor, ValueFrom, ObservationOf, Says, Admitted;
    var a, k := Admitted(c, ss), Key(resource, queue, rule.metric);
    BucketIsAdmitted(c, a, k);
    BucketHolds(c, a, k);
    AdmittedPasses(c, ss);
    if o in Bucket(c, a, k) {
      var s :| s in a && Reads(c, s, k) && o == ObservationOf(c, s, k.metric);
      SaysMeans(c, s, rule, resource, queue, o);
      assert s in ss && Says(c, s, rule, resource, queue, o);
    }
    if s :| s in ss && Says(c, s, rule, resource, queue, o) {
      SaysMeans(c, s, rule, resource, queue, o);
      PassingAdmitted(c, ss, s);
    }
  }

  lemma {:induction false} PassingAdmitted(c: Context, ss: seq<Sample>, s: Sample)
    requires forall s, t | s in ss && t in ss && s.snapshot == t.snapshot :: s == t
    requires s in ss && Passes(c, s)
    ensures s in Admitted(c, ss)
  {
    hide Passes, Admitted, Leads;
    AdmittedExact(c, ss);
    assert !Unheard(c, ss, s.snapshot);
    var t :| t in Admitted(c, ss) && t.snapshot == s.snapshot;
    LeadsIsHeard(c, ss, t);
  }

  // ---- The verdict per key --------------------------------------------------

  /** The values of the samples are machine words. */
  predicate Words64(ss: seq<Sample>) {
    forall s | s in ss :: forall r | r in s.metrics :: r.value <= MAX_U64
  }

  lemma {:induction false} ValueAmong(rs: seq<E.Reading>, metric: nat)
    ensures var v := ValueFrom(rs, metric); v.Some? ==> E.Reading(metric, v.value) in rs
  {
    if rs != [] {
      ValueAmong(rs[1..], metric);
    }
  }

  lemma {:induction false} BucketWords(c: Context, ss: seq<Sample>, k: Key)
    requires Words64(ss)
    ensures forall o | o in Bucket(c, Admitted(c, ss), k) :: o.value <= MAX_U64
  {
    hide Bucket, Admitted, ValueFrom, Passes, FreshFor;
    BucketIsAdmitted(c, Admitted(c, ss), k);
    AdmittedPasses(c, ss);
    forall o | o in Bucket(c, Admitted(c, ss), k)
      ensures o.value <= MAX_U64
    {
      var s :| s in Admitted(c, ss) && Reads(c, s, k) && o == ObservationOf(c, s, k.metric);
      ValueAmong(s.metrics, k.metric);
    }
  }

  /** The readings kept of a metric at a queue of a resource. */
  function KeptAt(c: Context, ss: seq<Sample>, resource: Id, queue: nat, metric: nat): seq<Observation> {
    Kept(Bucket(c, Admitted(c, ss), Key(resource, queue, metric)))
  }

  /** Under the rejecting mode, a queue where the kept readings clash leaves the metric open. */
  predicate DisputedAt(c: Context, ss: seq<Sample>, queues: seq<nat>, resource: Id, metric: nat) {
    c.policy.contradiction.mode == 0
    && exists q | q in queues :: Clashes(c.policy.contradiction, KeptAt(c, ss, resource, q, metric))
  }

  predicate Sound(c: Context, ss: seq<Sample>) {
    P.Valid(c.policy) && Words64(ss)
  }

  lemma {:induction false} DecisionIs(c: Context, ss: seq<Sample>, k: Key, w: Observation)
    requires Sound(c, ss)
    ensures var d, s := DecisionAt(c, Admitted(c, ss), k), KeptAt(c, ss, k.resource, k.queue, k.metric);
            && (d.Some? <==> s != [])
            && (d.Some? ==> (d.value.conflict && !d.value.resolved
                             <==> Clashes(c.policy.contradiction, s) && c.policy.contradiction.mode == 0))
            && (d.Some? && d.value.winner == w <==> Wins(c.policy.contradiction, s, w))
  {
    hide Kept, Bucket, Admitted, Decide, P.RuleOk, P.LimitsOk, Clashes, Words64;
    var b := Bucket(c, Admitted(c, ss), k);
    if b != [] {
      WinnerIsBest(b);
      BucketWords(c, ss, k);
      VerdictExact(c.policy.contradiction, b, w);
    } else {
      KeptNothing();
      WinsAmong(c.policy.contradiction, Kept(b), w);
    }
  }

  lemma {:induction false} KeptNothing()
    ensures Kept([]) == []
  {
  }

  lemma {:induction false} WinsAmong(c: P.Contradiction, s: seq<Observation>, w: Observation)
    ensures Wins(c, s, w) ==> w in s
  {
  }

  lemma {:induction false} DisputeExact(c: Context, ss: seq<Sample>, queues: seq<nat>, resource: Id, metric: nat)
    requires Sound(c, ss)
    ensures UnresolvedAt(c, Admitted(c, ss), queues, resource, metric) <==> DisputedAt(c, ss, queues, resource, metric)
  {
    hide DecisionAt, KeptAt, Clashes, Sound, Admitted, Wins;
    forall q | q in queues
      ensures var d := DecisionAt(c, Admitted(c, ss), Key(resource, q, metric));
              d.Some? && d.value.conflict && !d.value.resolved
              <==> c.policy.contradiction.mode == 0 && Clashes(c.policy.contradiction, KeptAt(c, ss, resource, q, metric))
    {
      DecisionIs(c, ss, Key(resource, q, metric), Observation(0, 0, 0, 0, false, false, 0));
      NoClash(c.policy.contradiction);
    }
  }

  lemma {:induction false} NoClash(c: P.Contradiction)
    ensures !Clashes(c, [])
  {
  }

  // ---- The reading that stands for a rule -----------------------------------

  /** A queue's reading comes before another's: higher level, then newer, then lower queue. */
  predicate Precedes(rule: P.Rule, q: nat, o: Observation, r: nat, x: Observation) {
    var l, m := P.Classify(rule, o.value), P.Classify(rule, x.value);
    m < l || (m == l && (x.observed < o.observed || (x.observed == o.observed && q <= r)))
  }

  /** Of the readings that win at the queues looked at, the one that comes before all others. */
  ghost predicate Stands(c: Context, ss: seq<Sample>, queues: seq<nat>, resource: Id, rule: P.Rule, q: nat,
                         o: Observation) {
    && q in queues && Wins(c.policy.contradiction, KeptAt(c, ss, resource, q, rule.metric), o)
    && forall r, x | r in queues && Wins(c.policy.contradiction, KeptAt(c, ss, resource, r, rule.metric), x) ::
         Precedes(rule, q, o, r, x)
  }

  lemma {:induction false} PrecedesNext(rule: P.Rule, q: nat, o: Observation, r: nat, x: Observation, t: nat,
                                        y: Observation)
    requires Precedes(rule, q, o, r, x) && Precedes(rule, r, x, t, y)
    ensures Precedes(rule, q, o, t, y)
  {
    hide P.Classify;
  }

  /** The pick comes before every queue's decided reading. */
  lemma {:induction false} PickFirst(c: Context, a: seq<Sample>, queues: seq<nat>, resource: Id, rule: P.Rule)
    ensures var p := PickOver(c, a, queues, resource, rule);
            forall q | q in queues ::
              var d := DecisionAt(c, a, Key(resource, q, rule.metric));
              d.Some? ==> p.Picked? && Precedes(rule, p.queue, p.observation, q, d.value.winner)
    decreases |queues|
  {
    hide DecisionAt, P.Classify, P.ClassifyWithMargin, Precedes;
    if queues != [] {
      var front, q := queues[..|queues| - 1], queues[|queues| - 1];
      assert queues == front + [q];
      PickFirst(c, a, front, resource, rule);
      PickedIsDecided(c, a, front, resource, rule);
      var was, p := PickOver(c, a, front, resource, rule), PickOver(c, a, queues, resource, rule);
      var d := DecisionAt(c, a, Key(resource, q, rule.metric));
      if d.Some? {
        StepPrecedes(c, rule, q, d.value, was);
        forall r | r in front && DecisionAt(c, a, Key(resource, r, rule.metric)).Some?
          ensures Precedes(rule, p.queue, p.observation, r, DecisionAt(c, a, Key(resource, r, rule.metric)).value.winner)
        {
          var x := DecisionAt(c, a, Key(resource, r, rule.metric)).value.winner;
          PrecedesNext(rule, p.queue, p.observation, was.queue, was.observation, r, x);
        }
      }
    }
  }

  lemma {:induction false} StepPrecedes(c: Context, rule: P.Rule, q: nat, d: Decision, was: Pick)
    requires was.Picked? ==> was.up == P.ClassifyWithMargin(rule, was.observation.value, 0)
    ensures var p := PickNext(c, rule, q, Some(d), was);
            && p.Picked? && Precedes(rule, p.queue, p.observation, q, d.winner)
            && (was.Picked? ==> Precedes(rule, p.queue, p.observation, was.queue, was.observation))
  {
    NoMargin(rule, d.winner.value);
    if was.Picked? {
      NoMargin(rule, was.observation.value);
    }
    hide P.ClassifyWithMargin, P.Classify;
  }

  /** There is a pick exactly when some queue kept a reading, and it is the one that stands. */
  lemma {:induction false} PickExact(c: Context, ss: seq<Sample>, queues: seq<nat>, resource: Id, rule: P.Rule)
    requires Sound(c, ss)
    ensures var p := PickOver(c, Admitted(c, ss), queues, resource, rule);
            && (p.Picked? <==> exists q :: q in queues && KeptAt(c, ss, resource, q, rule.metric) != [])
            && (forall q, o :: p.Picked? && p.queue == q && p.observation == o
                               <==> Stands(c, ss, queues, resource, rule, q, o))
            && (p.Picked? ==> p.up == P.Classify(rule, p.observation.value)
                              && p.down == P.ClassifyWithMargin(rule, p.observation.value, c.policy.dwell.marginPpm))
  {
    hide DecisionAt, PickOver, KeptAt, Sound, Wins, P.Classify, P.ClassifyWithMargin, Precedes, Admitted;
    var a := Admitted(c, ss);
    PickedIsDecided(c, a, queues, resource, rule);
    PickFirst(c, a, queues, resource, rule);
    var p := PickOver(c, a, queues, resource, rule);
    forall q | q in queues
      ensures DecisionAt(c, a, Key(resource, q, rule.metric)).Some? <==> KeptAt(c, ss, resource, q, rule.metric) != []
    {
      DecisionIs(c, ss, Key(resource, q, rule.metric), Observation(0, 0, 0, 0, false, false, 0));
    }
    forall q, x | q in queues
      ensures var d := DecisionAt(c, a, Key(resource, q, rule.metric));
              d.Some? && d.value.winner == x
              <==> Wins(c.policy.contradiction, KeptAt(c, ss, resource, q, rule.metric), x)
    {
      DecisionIs(c, ss, Key(resource, q, rule.metric), x);
    }
    if p.Picked? {
      NoMargin(rule, p.observation.value);
      assert Stands(c, ss, queues, resource, rule, p.queue, p.observation);
    }
    forall q, o | Stands(c, ss, queues, resource, rule, q, o)
      ensures p.Picked? && p.queue == q && p.observation == o
    {
      OneStands(c, ss, queues, resource, rule, q, o, p.queue, p.observation);
    }
  }

  lemma {:induction false} OneStands(c: Context, ss: seq<Sample>, queues: seq<nat>, resource: Id, rule: P.Rule,
                                     q: nat, o: Observation, r: nat, x: Observation)
    requires Sound(c, ss)
    requires Stands(c, ss, queues, resource, rule, q, o) && Stands(c, ss, queues, resource, rule, r, x)
    ensures q == r && o == x
  {
    hide DecisionAt, KeptAt, Sound, Wins, P.Classify;
    DecisionIs(c, ss, Key(resource, q, rule.metric), o);
    DecisionIs(c, ss, Key(resource, r, rule.metric), x);
  }

  // ---- What a rule reads at a resource --------------------------------------

  /** Nothing is open on the rule's metric, and some queue kept a reading of it. */
  predicate Hears(c: Context, ss: seq<Sample>, queues: seq<nat>, resource: Id, rule: P.Rule) {
    && !DisputedAt(c, ss, queues, resource, rule.metric)
    && exists q :: q in queues && KeptAt(c, ss, resource, q, rule.metric) != []
  }

  /** A value is at or beyond the level's threshold, give or take millionths of it. */
  predicate Reaches(rule: P.Rule, value: nat, ppm: nat, level: Severity) {
    var t := P.ThresholdAt(rule, level);
    if rule.op == P.AT_LEAST then value + t * ppm / 1_000_000 >= t else value <= t + t * ppm / 1_000_000
  }

  /** The rule is heard, and the reading that stands for it is at or beyond the level. */
  ghost predicate ReadsAt(c: Context, ss: seq<Sample>, queues: seq<nat>, resource: Id, rule: P.Rule, ppm: nat,
                          level: Severity) {
    && !DisputedAt(c, ss, queues, resource, rule.metric)
    && exists q, o :: Stands(c, ss, queues, resource, rule, q, o) && Reaches(rule, o.value, ppm, level)
  }

  lemma {:induction false} StandsMeans(c: Context, ss: seq<Sample>, queues: seq<nat>, resource: Id, rule: P.Rule,
                                       q: nat, o: Observation)
    requires Sound(c, ss) && Stands(c, ss, queues, resource, rule, q, o)
    ensures o.value <= MAX_U64
  {
    hide Kept, Bucket, Admitted, P.RuleOk, P.LimitsOk, Clashes;
    WinsAmong(c.policy.contradiction, KeptAt(c, ss, resource, q, rule.metric), o);
    var k := Key(resource, q, rule.metric);
    KeptMeans(Bucket(c, Admitted(c, ss), k));
    BucketWords(c, ss, k);
  }

  lemma {:induction false} RuleReaches(c: Context, rule: P.Rule, value: nat, ppm: nat, level: Severity)
    requires P.Valid(c.policy) && rule in c.policy.rules && value <= MAX_U64 && ppm <= P.MAX_PPM && level != CLEAR
    ensures P.ClassifyWithMargin(rule, value, ppm) >= level <==> Reaches(rule, value, ppm, level)
  {
    hide P.ClassifyWithMargin, P.LimitsOk;
    assert P.RuleOk(rule, c.policy.freshness.defaultMaxAge);
    P.ClassifiesAt(rule, value, ppm, level);
  }

  lemma {:induction false} OutcomeExact(c: Context, ss: seq<Sample>, queues: seq<nat>, resource: Id, rule: P.Rule,
                                        level: Severity)
    requires Sound(c, ss) && rule in c.policy.rules && level != CLEAR
    ensures var o := OutcomeOf(c, Admitted(c, ss), queues, resource, rule);
            && (o.Disputed? <==> DisputedAt(c, ss, queues, resource, rule.metric))
            && (o.Read? <==> Hears(c, ss, queues, resource, rule))
            && (ReadsUp(o, level) <==> ReadsAt(c, ss, queues, resource, rule, 0, level))
            && (ReadsDown(o, level) <==> ReadsAt(c, ss, queues, resource, rule, c.policy.dwell.marginPpm, level))
  {
    hide Admitted, PickOver, UnresolvedAt, DisputedAt, KeptAt, Stands, Reaches, P.ClassifyWithMargin, P.Classify;
    DisputeExact(c, ss, queues, resource, rule.metric);
    PickExact(c, ss, queues, resource, rule);
    var p := PickOver(c, Admitted(c, ss), queues, resource, rule);
    if p.Picked? {
      StandsMeans(c, ss, queues, resource, rule, p.queue, p.observation);
      NoMargin(rule, p.observation.value);
      RuleReaches(c, rule, p.observation.value, 0, level);
      RuleReaches(c, rule, p.observation.value, c.policy.dwell.marginPpm, level);
    }
  }

  // ---- Counting the metrics that agree --------------------------------------

  /** The metrics read at or beyond a level at a resource. */
  ghost function MetricsAt(c: Context, ss: seq<Sample>, queues: seq<nat>, resource: Id, ppm: nat,
                           level: Severity): set<nat> {
    set rule | rule in c.policy.rules && ReadsAt(c, ss, queues, resource, rule, ppm, level) :: rule.metric
  }

  function CountTrue(bs: seq<bool>): nat {
    if bs == [] then 0 else CountTrue(bs[..|bs| - 1]) + if bs[|bs| - 1] then 1 else 0
  }

  function Marked(rules: seq<P.Rule>, bs: seq<bool>): set<nat>
    requires |rules| == |bs|
  {
    set i | 0 <= i < |rules| && bs[i] :: rules[i].metric
  }

  lemma {:induction false} MarkedCount(rules: seq<P.Rule>, bs: seq<bool>)
    requires |rules| == |bs| && P.MetricsDistinct(rules)
    ensures |Marked(rules, bs)| == CountTrue(bs)
    decreases |bs|
  {
    if bs != [] {
      var n := |bs| - 1;
      MarkedCount(rules[..n], bs[..n]);
      var before := Marked(rules[..n], bs[..n]);
      assert Marked(rules, bs) == if bs[n] then before + {rules[n].metric} else before;
      assert rules[n].metric !in before;
    }
  }

  lemma {:induction false} AgreeIsCount(os: seq<Outcome>, bs: seq<bool>, level: Severity)
    requires |os| == |bs|
    ensures (forall i | 0 <= i < |os| :: bs[i] == ReadsUp(os[i], level)) ==> AgreeUp(os, level) == CountTrue(bs)
    ensures (forall i | 0 <= i < |os| :: bs[i] == ReadsDown(os[i], level)) ==> AgreeDown(os, level) == CountTrue(bs)
    decreases |os|
  {
    hide ReadsUp, ReadsDown;
    if os != [] {
      AgreeIsCount(os[..|os| - 1], bs[..|os| - 1], level);
    }
  }

  lemma {:induction false} CountExact(c: Context, ss: seq<Sample>, queues: seq<nat>, resource: Id, level: Severity)
    requires Sound(c, ss) && level != CLEAR
    ensures var os := Outcomes(c, Admitted(c, ss), queues, resource, c.policy.rules);
            && AgreeUp(os, level) == |MetricsAt(c, ss, queues, resource, 0, level)|
            && AgreeDown(os, level) == |MetricsAt(c, ss, queues, resource, c.policy.dwell.marginPpm, level)|
  {
    hide Admitted, ReadsAt, ReadsUp, ReadsDown, OutcomeOf, AgreeUp, AgreeDown, P.RuleOk, P.LimitsOk, Words64;
    var rules := c.policy.rules;
    var os := Outcomes(c, Admitted(c, ss), queues, resource, rules);
    var up := seq(|os|, i requires 0 <= i < |os| => ReadsUp(os[i], level));
    var down := seq(|os|, i requires 0 <= i < |os| => ReadsDown(os[i], level));
    forall i | 0 <= i < |rules|
      ensures up[i] <==> ReadsAt(c, ss, queues, resource, rules[i], 0, level)
      ensures down[i] <==> ReadsAt(c, ss, queues, resource, rules[i], c.policy.dwell.marginPpm, level)
    {
      OutcomeExact(c, ss, queues, resource, rules[i], level);
    }
    AgreeIsCount(os, up, level);
    AgreeIsCount(os, down, level);
    MarkedCount(rules, up);
    MarkedCount(rules, down);
    assert Marked(rules, up) == MetricsAt(c, ss, queues, resource, 0, level);
    assert Marked(rules, down) == MetricsAt(c, ss, queues, resource, c.policy.dwell.marginPpm, level);
  }

  // ---- The gates ------------------------------------------------------------

  function GateAt(g: P.Gates, level: Severity): nat {
    if level == SEVERE then g.severe else if level == CONGESTED then g.congested else g.watch
  }

  /** At the level or a higher one enough distinct metrics agree for a gate that is set. */
  ghost predicate Gated(c: Context, ss: seq<Sample>, queues: seq<nat>, resource: Id, ppm: nat, level: Severity) {
    exists l: Severity :: level <= l && GateAt(c.policy.gates, l) != 0
      && |MetricsAt(c, ss, queues, resource, ppm, l)| >= GateAt(c.policy.gates, l)
  }

  /** What holds a resource at a level on the way down: what would bring it there, and
      within the margin any one metric or as many as the gate asks for. */
  ghost predicate Held(c: Context, ss: seq<Sample>, queues: seq<nat>, resource: Id, level: Severity) {
    || Gated(c, ss, queues, resource, 0, level)
    || if c.policy.dwell.allMustAgree then MetricsAt(c, ss, queues, resource, c.policy.dwell.marginPpm, level) != {}
       else Gated(c, ss, queues, resource, c.policy.dwell.marginPpm, level)
  }

  lemma {:induction false} StrictestExact(os: seq<Outcome>, level: Severity)
    requires level != CLEAR
    ensures StrictestDown(os) >= level <==> exists i :: 0 <= i < |os| && ReadsDown(os[i], level)
    decreases |os|
  {
    if os != [] {
      var front := os[..|os| - 1];
      StrictestExact(front, level);
      if i :| 0 <= i < |front| && ReadsDown(front[i], level) {
        assert ReadsDown(os[i], level);
      }
      if i :| 0 <= i < |os| && ReadsDown(os[i], level) {
        assert i < |front| ==> ReadsDown(front[i], level);
      }
    }
  }

  lemma {:induction false} AgreeSome(os: seq<Outcome>, level: Severity)
    ensures AgreeDown(os, level) > 0 <==> exists i :: 0 <= i < |os| && ReadsDown(os[i], level)
    decreases |os|
  {
    hide ReadsDown;
    if os != [] {
      var front := os[..|os| - 1];
      AgreeSome(front, level);
      if i :| 0 <= i < |front| && ReadsDown(front[i], level) {
        assert ReadsDown(os[i], level);
      }
      if i :| 0 <= i < |os| && ReadsDown(os[i], level) {
        assert i < |front| ==> ReadsDown(front[i], level);
      }
    }
  }

  /** The gate over the numbers of metrics reaches a level exactly when that level or a higher one is gated. */
  lemma {:induction false} GateExact(c: Context, ss: seq<Sample>, queues: seq<nat>, resource: Id, ppm: nat,
                                     level: Severity)
    requires level != CLEAR
    ensures Gate(|MetricsAt(c, ss, queues, resource, ppm, WATCH)|, |MetricsAt(c, ss, queues, resource, ppm, CONGESTED)|,
                 |MetricsAt(c, ss, queues, resource, ppm, SEVERE)|, c.policy.gates) >= level
       <==> Gated(c, ss, queues, resource, ppm, level)
  {
    hide MetricsAt;
    assert level <= SEVERE && (level <= CONGESTED ==> GateAt(c.policy.gates, CONGESTED) == c.policy.gates.congested);
    assert GateAt(c.policy.gates, SEVERE) == c.policy.gates.severe;
    assert GateAt(c.policy.gates, WATCH) == c.policy.gates.watch;
  }

  lemma {:induction false} SomeMetric(s: set<nat>)
    ensures s != {} <==> |s| > 0
  {
  }

  /** A resource's severities are at a level exactly when it is gated or held there. */
  lemma {:induction false} LevelExact(c: Context, ss: seq<Sample>, queues: seq<nat>, resource: Id, level: Severity)
    requires Sound(c, ss) && level != CLEAR
    ensures var os := Outcomes(c, Admitted(c, ss), queues, resource, c.policy.rules);
            && (Up(os, c.policy.gates) >= level <==> Gated(c, ss, queues, resource, 0, level))
            && (Down(os, c.policy) >= level <==> Held(c, ss, queues, resource, level))
  {
    hide Outcomes, MetricsAt, Admitted, AgreeUp, AgreeDown, StrictestDown, ReadsDown, Sound, Gate, Gated, GateAt;
    var os := Outcomes(c, Admitted(c, ss), queues, resource, c.policy.rules);
    CountExact(c, ss, queues, resource, WATCH);
    CountExact(c, ss, queues, resource, CONGESTED);
    CountExact(c, ss, queues, resource, SEVERE);
    StrictestExact(os, level);
    AgreeSome(os, level);
    GateExact(c, ss, queues, resource, 0, level);
    GateExact(c, ss, queues, resource, c.policy.dwell.marginPpm, level);
    CountExact(c, ss, queues, resource, level);
    SomeMetric(MetricsAt(c, ss, queues, resource, c.policy.dwell.marginPpm, level));
  }

  // ---- The proposal ---------------------------------------------------------

  /** Some metric of a rule is left open at some resource in scope. */
  predicate Contested(c: Context, ss: seq<Sample>, queues: seq<nat>) {
    exists r, rule | r in c.resources && rule in c.policy.rules :: DisputedAt(c, ss, queues, r, rule.metric)
  }

  predicate HeardAt(c: Context, ss: seq<Sample>, queues: seq<nat>, resource: Id) {
    exists rule | rule in c.policy.rules :: Hears(c, ss, queues, resource, rule)
  }

  /** A resource that is heard of, but not by every required rule. */
  predicate Gappy(c: Context, ss: seq<Sample>, queues: seq<nat>, resource: Id) {
    && HeardAt(c, ss, queues, resource)
    && exists rule | rule in c.policy.rules :: rule.required && !Hears(c, ss, queues, resource, rule)
  }

  lemma {:induction false} AssessExact(c: Context, ss: seq<Sample>, queues: seq<nat>, resource: Id)
    requires Sound(c, ss)
    ensures var a := Assess(Outcomes(c, Admitted(c, ss), queues, resource, c.policy.rules), c.policy);
            && (a.disputed <==> exists rule | rule in c.policy.rules :: DisputedAt(c, ss, queues, resource, rule.metric))
            && (a.coverage == NoCoverage <==> !a.disputed && !HeardAt(c, ss, queues, resource))
            && (a.coverage == FullCoverage <==> HeardAt(c, ss, queues, resource) && !Gappy(c, ss, queues, resource))
  {
    hide Admitted, Sound, OutcomeOf, Hears, DisputedAt, Up, Down, ReadsUp, ReadsDown;
    var rules := c.policy.rules;
    var os := Outcomes(c, Admitted(c, ss), queues, resource, rules);
    forall i | 0 <= i < |rules|
      ensures os[i].Disputed? <==> DisputedAt(c, ss, queues, resource, rules[i].metric)
      ensures os[i].Read? <==> Hears(c, ss, queues, resource, rules[i])
    {
      OutcomeExact(c, ss, queues, resource, rules[i], WATCH);
    }
    assert forall rule | rule in rules :: exists i :: 0 <= i < |rules| && rules[i] == rule;
  }

  lemma {:induction false} MaxReaches(xs: seq<Assessment>, level: Severity)
    requires level != CLEAR
    ensures MaxUp(xs) >= level <==> exists i :: 0 <= i < |xs| && xs[i].coverage != NoCoverage && xs[i].up >= level
    ensures MaxDown(xs) >= level <==> exists i :: 0 <= i < |xs| && xs[i].coverage != NoCoverage && xs[i].down >= level
    decreases |xs|
  {
    if xs != [] {
      var n := |xs| - 1;
      MaxReaches(xs[..n], level);
      assert forall i | 0 <= i < n :: xs[..n][i] == xs[i];
    }
  }

  /** What puts a resource at a level is heard. */
  lemma {:induction false} HeldIsHeard(c: Context, ss: seq<Sample>, queues: seq<nat>, resource: Id, level: Severity)
    requires Held(c, ss, queues, resource, level)
    ensures HeardAt(c, ss, queues, resource)
  {
    hide DisputedAt, KeptAt, Reaches, Precedes, Wins;
    var ppm := c.policy.dwell.marginPpm;
    forall p: nat, l: Severity | |MetricsAt(c, ss, queues, resource, p, l)| > 0
      ensures HeardAt(c, ss, queues, resource)
    {
      var m :| m in MetricsAt(c, ss, queues, resource, p, l);
      var rule :| rule in c.policy.rules && ReadsAt(c, ss, queues, resource, rule, p, l);
      var q, o :| Stands(c, ss, queues, resource, rule, q, o);
      WinsAmong(c.policy.contradiction, KeptAt(c, ss, resource, q, rule.metric), o);
      assert Hears(c, ss, queues, resource, rule);
    }
    SomeMetric(MetricsAt(c, ss, queues, resource, ppm, level));
  }

  /** All that an assessment says. */
  ghost predicate Assessed(c: Context, ss: seq<Sample>, queues: seq<nat>, resource: Id, a: Assessment, level: Severity) {
    && (a.disputed <==> exists rule | rule in c.policy.rules :: DisputedAt(c, ss, queues, resource, rule.metric))
    && (a.coverage != NoCoverage <==> a.disputed || HeardAt(c, ss, queues, resource))
    && (!a.disputed ==> (a.coverage == PartialCoverage <==> Gappy(c, ss, queues, resource)))
    && (a.up >= level <==> Gated(c, ss, queues, resource, 0, level))
    && (a.down >= level <==> Held(c, ss, queues, resource, level))
    && (Held(c, ss, queues, resource, level) ==> HeardAt(c, ss, queues, resource))
    && (Gappy(c, ss, queues, resource) ==> HasRequired(c.policy.rules))
  }

  lemma {:induction false} AssessedExact(c: Context, ss: seq<Sample>, queues: seq<nat>, resource: Id, level: Severity)
    requires Sound(c, ss) && level != CLEAR
    ensures Assessed(c, ss, queues, resource,
                     Assess(Outcomes(c, Admitted(c, ss), queues, resource, c.policy.rules), c.policy), level)
  {
    hide Admitted, Sound, Outcomes, DisputedAt, Hears, Gated, HeardAt, Up, Down, Held;
    AssessExact(c, ss, queues, resource);
    LevelExact(c, ss, queues, resource, level);
    if Held(c, ss, queues, resource, level) {
      HeldIsHeard(c, ss, queues, resource, level);
    }
  }

  ghost predicate AllAssessed(c: Context, ss: seq<Sample>, queues: seq<nat>, xs: seq<Assessment>, level: Severity) {
    |xs| == |c.resources| && forall i | 0 <= i < |xs| :: Assessed(c, ss, queues, c.resources[i], xs[i], level)
  }

  lemma {:induction false} ConflictIs(c: Context, ss: seq<Sample>, queues: seq<nat>, xs: seq<Assessment>, level: Severity)
    requires AllAssessed(c, ss, queues, xs, level)
    ensures AnyConflict(xs) <==> Contested(c, ss, queues)
  {
    hide DisputedAt, HeardAt, Gappy, Gated, Held;
    if AnyConflict(xs) {
      var i :| 0 <= i < |xs| && xs[i].disputed;
      assert c.resources[i] in c.resources && Assessed(c, ss, queues, c.resources[i], xs[i], level);
    }
    if r, rule :| r in c.resources && rule in c.policy.rules && DisputedAt(c, ss, queues, r, rule.metric) {
      var i :| 0 <= i < |xs| && c.resources[i] == r;
      assert Assessed(c, ss, queues, c.resources[i], xs[i], level);
    }
  }

  lemma {:induction false} EvidenceIs(c: Context, ss: seq<Sample>, queues: seq<nat>, xs: seq<Assessment>, level: Severity)
    requires AllAssessed(c, ss, queues, xs, level) && !AnyConflict(xs)
    ensures AnyEvidence(xs) <==> exists r | r in c.resources :: HeardAt(c, ss, queues, r)
    ensures HasRequired(c.policy.rules) && AnyPartial(xs) <==> exists r | r in c.resources :: Gappy(c, ss, queues, r)
  {
    hide DisputedAt, HeardAt, Gappy, Gated, Held, HasRequired;
    forall i | 0 <= i < |xs|
      ensures xs[i].coverage != NoCoverage <==> HeardAt(c, ss, queues, c.resources[i])
      ensures xs[i].coverage == PartialCoverage <==> Gappy(c, ss, queues, c.resources[i])
      ensures Gappy(c, ss, queues, c.resources[i]) ==> HasRequired(c.policy.rules)
    {
      assert Assessed(c, ss, queues, c.resources[i], xs[i], level);
    }
    assert forall r | r in c.resources :: exists i :: 0 <= i < |xs| && c.resources[i] == r;
  }

  lemma {:induction false} LevelsAre(c: Context, ss: seq<Sample>, queues: seq<nat>, xs: seq<Assessment>, level: Severity)
    requires AllAssessed(c, ss, queues, xs, level) && level != CLEAR
    requires forall i | 0 <= i < |xs| :: Coherent(xs[i])
    ensures MaxUp(xs) >= level <==> exists r | r in c.resources :: Gated(c, ss, queues, r, 0, level)
    ensures MaxDown(xs) >= level <==> exists r | r in c.resources :: Held(c, ss, queues, r, level)
  {
    hide DisputedAt, HeardAt, Gappy, Gated, Held, HasRequired, MaxUp, MaxDown;
    MaxReaches(xs, level);
    forall i | 0 <= i < |xs|
      ensures xs[i].coverage != NoCoverage && xs[i].up >= level <==> Gated(c, ss, queues, c.resources[i], 0, level)
      ensures xs[i].coverage != NoCoverage && xs[i].down >= level <==> Held(c, ss, queues, c.resources[i], level)
    {
      assert Assessed(c, ss, queues, c.resources[i], xs[i], level);
    }
    assert forall r | r in c.resources :: exists i :: 0 <= i < |xs| && c.resources[i] == r;
  }

  /** The proposal, both ways. It has a value exactly when nothing in scope is contested and
      something is heard; without one it is Conflict exactly when contested. Its upward
      severity is at a level exactly when some resource has enough distinct metrics there
      for a gate that is set, or the level is Watch and a required rule is unheard at a
      resource that is heard of; its downward severity exactly when some resource is held
      there, or likewise. */
  lemma {:induction false} ProposalExact(c: Context, ss: seq<Sample>, queues: seq<nat>, seenBefore: bool, level: Severity)
    requires Sound(c, ss) && level != CLEAR
    ensures var p := Proposal(c, ss, queues, seenBefore);
            && (p.hasValue <==> !Contested(c, ss, queues)
                                && exists r | r in c.resources :: HeardAt(c, ss, queues, r))
            && (!p.hasValue ==> p.indeterminate == if Contested(c, ss, queues) then CongestionState.Conflict
                                                   else if seenBefore then Stale else Unknown)
            && (p.hasValue ==>
                  && (p.upward >= level <==>
                        || (exists r | r in c.resources :: Gated(c, ss, queues, r, 0, level))
                        || (level == WATCH && exists r | r in c.resources :: Gappy(c, ss, queues, r)))
                  && (p.downward >= level <==>
                        || (exists r | r in c.resources :: Held(c, ss, queues, r, level))
                        || (level == WATCH && exists r | r in c.resources :: Gappy(c, ss, queues, r))))
  {
    hide Admitted, Sound, Outcomes, Contested, Gated, Held, Assess, HeardAt, Gappy, MaxUp, MaxDown, Assessed, AnyConflict,
         AnyEvidence, AnyPartial, HasRequired;
    var xs := Assessments(c, Admitted(c, ss), queues, c.resources);
    AssessmentsCoherent(c, Admitted(c, ss), queues, c.resources);
    forall i | 0 <= i < |xs|
      ensures Assessed(c, ss, queues, c.resources[i], xs[i], level)
    {
      AssessedExact(c, ss, queues, c.resources[i], level);
    }
    ConflictIs(c, ss, queues, xs, level);
    if !AnyConflict(xs) {
      EvidenceIs(c, ss, queues, xs, level);
      LevelsAre(c, ss, queues, xs, level);
    }
  }
}
