/** What an evaluation does not depend on: queues without a reading, samples of other
    epochs, and the order in which samples arrive (src/eval/evaluator.cpp). */
module Arrival {
  import opened Words
  import opened Model
  import opened Contradiction
  import opened Evaluator
  import opened Evaluation
  import P = Policy
  import T = Topology
  import H = Hysteresis

  // ---- Queues without a reading ---------------------------------------------

  /** The queues at which a metric of a resource was decided. */
  function Voiced(c: Context, admitted: seq<Sample>, queues: seq<nat>, resource: Id, metric: nat): (r: seq<nat>)
    ensures forall q :: q in r <==> q in queues && DecisionAt(c, admitted, Key(resource, q, metric)).Some?
  {
    if queues == [] then []
    else
      var front, q := queues[..|queues| - 1], queues[|queues| - 1];
      assert queues == front + [q];
      var r := Voiced(c, admitted, front, resource, metric);
      if DecisionAt(c, admitted, Key(resource, q, metric)).Some? then r + [q] else r
  }

  lemma {:induction false} VoicedIncreasing(c: Context, admitted: seq<Sample>, queues: seq<nat>, resource: Id,
                                            metric: nat)
    requires T.Increasing(queues)
    ensures T.Increasing(Voiced(c, admitted, queues, resource, metric))
    decreases |queues|
  {
    hide DecisionAt;
    if queues != [] {
      var front, q := queues[..|queues| - 1], queues[|queues| - 1];
      VoicedIncreasing(c, admitted, front, resource, metric);
      var r := Voiced(c, admitted, front, resource, metric);
      assert forall i | 0 <= i < |r| :: r[i] in r && r[i] in front;
    }
  }

  /** Every decided key is at one of the queues. */
  ghost predicate Heard(c: Context, admitted: seq<Sample>, queues: seq<nat>) {
    forall k: Key :: DecisionAt(c, admitted, k).Some? ==> k.queue in queues
  }

  ghost predicate SameDecisions(c: Context, a: seq<Sample>, b: seq<Sample>) {
    forall k: Key :: DecisionAt(c, a, k) == DecisionAt(c, b, k)
  }

  lemma {:induction false} PickVoiced(c: Context, admitted: seq<Sample>, queues: seq<nat>, resource: Id, rule: P.Rule)
    ensures PickOver(c, admitted, queues, resource, rule)
         == PickOver(c, admitted, Voiced(c, admitted, queues, resource, rule.metric), resource, rule)
    decreases |queues|
  {
    hide DecisionAt, PickBetter;
    if queues != [] {
      var front, q := queues[..|queues| - 1], queues[|queues| - 1];
      PickVoiced(c, admitted, front, resource, rule);
      var r := Voiced(c, admitted, front, resource, rule.metric);
      assert (r + [q])[..|r + [q]| - 1] == r;
    }
  }

  lemma {:induction false} PickSame(c: Context, a: seq<Sample>, b: seq<Sample>, queues: seq<nat>, resource: Id,
                                    rule: P.Rule)
    requires SameDecisions(c, a, b)
    ensures PickOver(c, a, queues, resource, rule) == PickOver(c, b, queues, resource, rule)
    decreases |queues|
  {
    hide DecisionAt, PickNext;
    if queues != [] {
      PickSame(c, a, b, queues[..|queues| - 1], resource, rule);
    }
  }

  /** The outcome of a rule rests on the decisions alone. */
  lemma {:induction false} SameOutcome(c: Context, a: seq<Sample>, x: seq<nat>, b: seq<Sample>, y: seq<nat>,
                                       resource: Id, rule: P.Rule)
    requires SameDecisions(c, a, b) && T.Increasing(x) && T.Increasing(y) && Heard(c, a, x) && Heard(c, b, y)
    ensures OutcomeOf(c, a, x, resource, rule) == OutcomeOf(c, b, y, resource, rule)
  {
    hide DecisionAt, PickOver, T.Increasing;
    var v, w := Voiced(c, a, x, resource, rule.metric), Voiced(c, b, y, resource, rule.metric);
    VoicedIncreasing(c, a, x, resource, rule.metric);
    VoicedIncreasing(c, b, y, resource, rule.metric);
    T.ListsUnique(v, w, set q | q in v);
    PickVoiced(c, a, x, resource, rule);
    PickVoiced(c, b, y, resource, rule);
    PickSame(c, a, b, v, resource, rule);
    assert UnresolvedAt(c, a, x, resource, rule.metric) == UnresolvedAt(c, b, y, resource, rule.metric);
  }

  lemma {:induction false} SameProposal(c: Context, xs: seq<Sample>, x: seq<nat>, ys: seq<Sample>, y: seq<nat>,
                                        seenBefore: bool)
    requires SameDecisions(c, Admitted(c, xs), Admitted(c, ys)) && T.Increasing(x) && T.Increasing(y)
    requires Heard(c, Admitted(c, xs), x) && Heard(c, Admitted(c, ys), y)
    ensures Proposal(c, xs, x, seenBefore) == Proposal(c, ys, y, seenBefore)
  {
    hide Admitted, SameDecisions, Heard, T.Increasing, OutcomeOf, Assess;
    var a, b := Admitted(c, xs), Admitted(c, ys);
    var rules := c.policy.rules;
    forall i | 0 <= i < |c.resources|
      ensures Outcomes(c, a, x, c.resources[i], rules) == Outcomes(c, b, y, c.resources[i], rules)
    {
      forall j | 0 <= j < |rules|
        ensures OutcomeOf(c, a, x, c.resources[i], rules[j]) == OutcomeOf(c, b, y, c.resources[i], rules[j])
      {
        SameOutcome(c, a, x, b, y, c.resources[i], rules[j]);
      }
      assert Outcomes(c, a, x, c.resources[i], rules) == Outcomes(c, b, y, c.resources[i], rules);
    }
    assert Assessments(c, a, x, c.resources) == Assessments(c, b, y, c.resources);
  }

  /** Only a queue some admitted sample names is decided. */
  lemma {:induction false} QueuesHeard(c: Context, ss: seq<Sample>)
    ensures Heard(c, Admitted(c, ss), Queues(ss)) && T.Increasing(Queues(ss))
  {
    hide Admitted, Queues, Bucket, Decide, Kept;
    QueuesIncreasing(ss);
    QueuesCover(ss);
    AdmittedPasses(c, ss);
    var a := Admitted(c, ss);
    forall k: Key | DecisionAt(c, a, k).Some?
      ensures k.queue in Queues(ss)
    {
      BucketIsAdmitted(c, a, k);
      assert Bucket(c, a, k)[0] in Bucket(c, a, k);
    }
  }

  lemma {:induction false} QueuesIncreasing(ss: seq<Sample>)
    ensures T.Increasing(Queues(ss)) && forall q :: q in Queues(ss) <==> q in QueueIds(ss)
  {
  }

  // ---- Samples of other epochs ----------------------------------------------

  /** The samples of one epoch, in order. */
  function OfEpoch(ss: seq<Sample>, epoch: nat): (r: seq<Sample>)
    ensures forall s :: s in r <==> s in ss && s.epoch == epoch
  {
    if ss == [] then []
    else
      var front, s := OfEpoch(ss[..|ss| - 1], epoch), ss[|ss| - 1];
      assert ss == ss[..|ss| - 1] + [s];
      if s.epoch == epoch then front + [s] else front
  }

  lemma {:induction false} AdmittedOfEpoch(c: Context, ss: seq<Sample>)
    requires c.epoch != 0
    ensures Admitted(c, ss) == Admitted(c, OfEpoch(ss, c.epoch))
    decreases |ss|
  {
    if ss != [] {
      var front, s := ss[..|ss| - 1], ss[|ss| - 1];
      AdmittedOfEpoch(c, front);
      if s.epoch == c.epoch {
        var kept := OfEpoch(front, c.epoch);
        assert (kept + [s])[..|kept + [s]| - 1] == kept;
      }
    }
  }

  /** The proposal is the one made from the samples of the context's epoch and their queues alone. */
  lemma {:induction false} OtherEpochsIgnored(c: Context, ss: seq<Sample>, seenBefore: bool)
    requires c.epoch != 0
    ensures var own := OfEpoch(ss, c.epoch);
            Proposal(c, ss, Queues(ss), seenBefore) == Proposal(c, own, Queues(own), seenBefore)
  {
    hide Admitted, OfEpoch, Heard, Queues;
    var own := OfEpoch(ss, c.epoch);
    AdmittedOfEpoch(c, ss);
    QueuesHeard(c, ss);
    QueuesHeard(c, own);
    SameProposal(c, ss, Queues(ss), own, Queues(own), seenBefore);
  }

  /** A proposal with a value rests on an admitted sample. */
  lemma {:induction false} ValueNeedsSample(c: Context, ss: seq<Sample>, queues: seq<nat>, seenBefore: bool)
    requires Proposal(c, ss, queues, seenBefore).hasValue
    ensures Admitted(c, ss) != []
  {
    hide Admitted, Up, Down, AnyDisputed;
    var a := Admitted(c, ss);
    var xs := Assessments(c, a, queues, c.resources);
    var i :| 0 <= i < |xs| && xs[i].coverage != NoCoverage;
    var os := Outcomes(c, a, queues, c.resources[i], c.policy.rules);
    assert !xs[i].disputed;
    var j :| 0 <= j < |os| && os[j].Read?;
    PickedIsDecided(c, a, queues, c.resources[i], c.policy.rules[j]);
  }

  // ---- The order of arrival -------------------------------------------------

  /** The samples that have a say under a key. */
  function Readers(c: Context, ss: seq<Sample>, k: Key): set<Sample> {
    set s | s in ss && Passes(c, s) && Reads(c, s, k)
  }

  /** Identities name contents; no key has more readings than the evaluator looks at; and
      two readings of one publisher under a key do not tie. */
  ghost predicate Orderly(c: Context, ss: seq<Sample>) {
    && (forall s, t | s in ss && t in ss && s.snapshot == t.snapshot :: s == t)
    && (forall k: Key :: |Readers(c, ss, k)| <= MAX_PEERS)
    && forall k: Key :: NoTies(c, Readers(c, ss, k), k.metric)
  }

  predicate NoTies(c: Context, readers: set<Sample>, metric: nat) {
    forall s, t | s in readers && t in readers && s.publisher == t.publisher
                  && ValueFrom(s.metrics, metric).Some? && ValueFrom(t.metrics, metric).Some? ::
      var x, y := ObservationOf(c, s, metric), ObservationOf(c, t, metric);
      x == y || Better(x, y) || Better(y, x)
  }

  lemma {:induction false} AdmittedAre(c: Context, ss: seq<Sample>, all: seq<Sample>)
    requires forall s, t | s in all && t in all && s.snapshot == t.snapshot :: s == t
    requires forall s | s in ss :: s in all
    ensures forall s :: s in Admitted(c, ss) <==> s in ss && Passes(c, s)
    decreases |ss|
  {
    hide Passes;
    if ss != [] {
      var front, s := ss[..|ss| - 1], ss[|ss| - 1];
      assert ss == front + [s];
      AdmittedAre(c, front, all);
      var a := Admitted(c, front);
      if s.snapshot in SnapshotsOf(a) {
        var t :| t in a && t.snapshot == s.snapshot;
        assert t in all && s in all && t == s;
      }
    }
  }

  /** Below the peer bound the bucket holds every reader's observation and nothing else. */
  lemma {:induction false} BucketAre(c: Context, a: seq<Sample>, k: Key)
    requires forall i, j | 0 <= i < j < |a| :: a[i].snapshot != a[j].snapshot
    requires forall s | s in a :: Passes(c, s)
    requires |Readers(c, a, k)| <= MAX_PEERS
    ensures |Bucket(c, a, k)| == |Readers(c, a, k)|
    ensures forall s | s in Readers(c, a, k) :: ObservationOf(c, s, k.metric) in Bucket(c, a, k)
    decreases |a|
  {
    hide Passes, ObservationOf, FreshFor, ValueFrom;
    if a != [] {
      var front, s := a[..|a| - 1], a[|a| - 1];
      assert a == front + [s];
      assert s !in front;
      var before := Readers(c, front, k);
      assert Readers(c, a, k) == if Reads(c, s, k) then before + {s} else before;
      BucketAre(c, front, k);
    }
  }

  lemma {:induction false} SameBucket(c: Context, xs: seq<Sample>, ys: seq<Sample>, k: Key)
    requires Orderly(c, xs) && forall s :: s in xs <==> s in ys
    ensures DecisionAt(c, Admitted(c, xs), k) == DecisionAt(c, Admitted(c, ys), k)
  {
    hide Passes, Reads, Bucket, Better, Admitted, Kept, Decide;
    var a, b := Admitted(c, xs), Admitted(c, ys);
    AdmittedAre(c, xs, xs);
    AdmittedAre(c, ys, xs);
    AdmittedPasses(c, xs);
    AdmittedPasses(c, ys);
    assert Readers(c, a, k) == Readers(c, xs, k) == Readers(c, b, k);
    BucketAre(c, a, k);
    BucketAre(c, b, k);
    BucketIsAdmitted(c, a, k);
    BucketIsAdmitted(c, b, k);
    var x, y := Bucket(c, a, k), Bucket(c, b, k);
    forall o
      ensures o in x <==> o in y
    {
    }
    UntiedBucket(c, a, k);
    if x != [] {
      DecisionOrderless(c.policy.contradiction, x, y);
    }
  }

  lemma {:induction false} UntiedBucket(c: Context, a: seq<Sample>, k: Key)
    requires NoTies(c, Readers(c, a, k), k.metric) && forall s | s in a :: Passes(c, s)
    ensures Untied(Bucket(c, a, k))
  {
    hide Passes, Bucket, Better, ValueFrom, FreshFor;
    BucketIsAdmitted(c, a, k);
    var b := Bucket(c, a, k);
    forall x, y | x in b && y in b && x != y && x.publisher == y.publisher
      ensures Better(x, y) || Better(y, x)
    {
      var s :| s in a && Reads(c, s, k) && x == ObservationOf(c, s, k.metric);
      var t :| t in a && Reads(c, t, k) && y == ObservationOf(c, t, k.metric);
      assert s in Readers(c, a, k) && t in Readers(c, a, k);
    }
  }

  /** An orderly request makes the same proposal in whatever order its samples arrive. */
  lemma {:induction false} ProposalOrderless(c: Context, xs: seq<Sample>, ys: seq<Sample>, seenBefore: bool)
    requires Orderly(c, xs) && forall s :: s in xs <==> s in ys
    ensures Proposal(c, xs, Queues(xs), seenBefore) == Proposal(c, ys, Queues(ys), seenBefore)
  {
    hide Orderly, DecisionAt, Admitted, Queues, Heard, Proposal;
    forall k: Key
      ensures DecisionAt(c, Admitted(c, xs), k) == DecisionAt(c, Admitted(c, ys), k)
    {
      SameBucket(c, xs, ys, k);
    }
    QueuesHeard(c, xs);
    QueuesHeard(c, ys);
    SameProposal(c, xs, Queues(xs), ys, Queues(ys), seenBefore);
  }

  lemma {:induction false} SampledAre(ss: seq<Sample>)
    ensures forall r :: r in SampledIds(ss) <==> r != 0 && exists s :: s in ss && s.resource == r
    decreases |ss|
  {
    if ss != [] {
      var front, s := ss[..|ss| - 1], ss[|ss| - 1];
      assert ss == front + [s];
      SampledAre(front);
    }
  }

  lemma {:induction false} SameScope(topology: Option<T.Snapshot>, q: Request, ys: seq<Sample>, policy: P.Policy)
    requires forall s :: s in q.samples <==> s in ys
    ensures ScopeIn(topology, q.(samples := ys), policy) == ScopeIn(topology, q, policy)
  {
    hide T.Sort, T.Unique, T.Increasing;
    if topology.None? {
      SampledAre(q.samples);
      SampledAre(ys);
      var x, y := T.Unique(T.Sort(SampledIds(q.samples))), T.Unique(T.Sort(SampledIds(ys)));
      T.ListsUnique(x, y, set r | r in x);
    }
  }

  /** The whole answer of an evaluation, machine and result included, is the same under
      any permutation of an orderly request. */
  lemma {:induction false} AnswerOrderless(topology: Option<T.Snapshot>, q: Request, ys: seq<Sample>,
                                           policy: P.Policy, prior: H.Machine)
    requires multiset(q.samples) == multiset(ys)
    requires var scope := ScopeIn(topology, q, policy);
             scope.Scope? ==> Orderly(ContextIn(topology, q, policy, scope.resources), q.samples)
    ensures AnswerOf(topology, q.(samples := ys), policy, prior) == AnswerOf(topology, q, policy, prior)
  {
    hide Orderly, ScopeIn, Proposal, Queues, H.Step;
    assert |q.samples| == |multiset(q.samples)| == |ys|;
    forall s
      ensures s in q.samples <==> s in ys
    {
      assert s in q.samples <==> s in multiset(q.samples);
      assert s in ys <==> s in multiset(ys);
    }
    SameScope(topology, q, ys, policy);
    var scope := ScopeIn(topology, q, policy);
    if scope.Scope? {
      var c := ContextIn(topology, q, policy, scope.resources);
      ProposalOrderless(c, q.samples, ys, prior.lastAuthoritative != NO_TICK);
    }
  }
}
