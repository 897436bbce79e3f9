/** The coordinator's locked state: publishers, fences, the evidence window, domains and
    active intents. Each public section that holds the lock is one step
    (src/fabric/fabric.cpp). */
module Fabric {
  import opened Words
  import opened Model
  import H = Hysteresis
  import R = HysteresisRuns
  import L = Planner
  import P = Policy
  import T = Topology
  import V = Evaluator
  import W = Evaluation

  type Id = nat
  type Sample = V.Sample

  datatype Registration = Registration(boot: Id, lastGeneration: nat, lastSequence: nat)

  datatype EvidenceKey = EvidenceKey(resource: Id, queue: Id, publisher: Id)

  datatype Options = Options(
    maxPublishers: nat, maxEvidence: nat, maxIntents: nat, granted: set<nat>, denied: set<nat>)

  datatype State = State(
    epoch: Id, generation: Id, policy: P.Policy, topology: Option<T.Snapshot>, publishers: map<Id, Registration>,
    fences: set<(Id, Id)>, evidence: map<EvidenceKey, Sample>, domains: map<Id, H.Machine>,
    intents: map<Id, seq<L.Intent>>, closed: bool)

  function KeyOf(s: Sample): EvidenceKey {
    EvidenceKey(s.resource, s.queue, s.publisher)
  }

  function AuthorityOf(s: State, o: Options): L.Authority {
    L.Authority(s.epoch, s.generation, s.policy.id, s.policy.fingerprint, o.granted, o.denied, 0)
  }

  // ---- The invariant --------------------------------------------------------

  /** All stored evidence is of this epoch, under its own key, and of no fenced incarnation. */
  predicate EvidenceOk(s: State) {
    forall k | k in s.evidence ::
      var e := s.evidence[k];
      KeyOf(e) == k && e.epoch == s.epoch && (e.publisher, e.boot) !in s.fences && e.resource != 0
  }

  predicate PublishersOk(s: State) {
    forall p | p in s.publishers :: (p, s.publishers[p].boot) !in s.fences
  }

  predicate Bounds(s: State, o: Options) {
    |s.evidence| <= o.maxEvidence && |s.publishers| <= o.maxPublishers
  }

  /** Every active intent is bound to the authority in force and to its own domain's list. */
  predicate IntentsOk(s: State, o: Options) {
    forall d, i | d in s.intents && i in s.intents[d] :: L.BoundTo(i, AuthorityOf(s, o))
  }

  predicate Inv(s: State, o: Options) {
    EvidenceOk(s) && PublishersOk(s) && Bounds(s, o) && IntentsOk(s, o)
  }

  // ---- Publishers and fences ------------------------------------------------

  datatype Answer = Done | Refused(why: Why)
  datatype Why = Closed | NoIdentity | Fenced | TooMany | BadReason | Backwards | Invalid

  function RegisterAnswer(s: State, o: Options, p: Id, b: Id): Answer {
    if p == 0 || b == 0 then Refused(NoIdentity)
    else if s.closed then Refused(Closed)
    else if (p, b) in s.fences then Refused(Fenced)
    else if |s.publishers| >= o.maxPublishers && p !in s.publishers then Refused(TooMany)
    else Done
  }

  function Registered(s: State, o: Options, p: Id, b: Id): State {
    if RegisterAnswer(s, o, p, b).Done? then s.(publishers := s.publishers[p := Registration(b, 0, 0)]) else s
  }

  /** Without a fence reason an incarnation just leaves. */
  function Left(s: State, p: Id, b: Id): State {
    if !s.closed && p in s.publishers && s.publishers[p].boot == b then s.(publishers := s.publishers - {p}) else s
  }

  predicate From(e: Sample, p: Id, b: Id) {
    e.publisher == p && e.boot == b
  }

  /** A fence takes the incarnation's registration and all its evidence with it. */
  function FencedOne(s: State, p: Id, b: Id): State {
    if s.closed || p == 0 || b == 0 then s
    else
      s.(publishers := if p in s.publishers && s.publishers[p].boot == b then s.publishers - {p} else s.publishers,
         fences := s.fences + {(p, b)},
         evidence := map k | k in s.evidence && !From(s.evidence[k], p, b) :: s.evidence[k])
  }

  // ---- Ingest ---------------------------------------------------------------

  const MAX_BATCH: nat := 0x1_0000

  datatype Tally = Tally(accepted: nat, rejected: nat, duplicate: nat, fenced: nat, epochMismatch: nat,
      regressed: nat, full: nat)

  const NO_TALLY := Tally(0, 0, 0, 0, 0, 0, 0)

  /** The later of two readings for a key: a newer generation, or the same one and a
      newer sequence when both carry one. */
  predicate Newer(s: Sample, previous: Sample) {
    || s.generation > previous.generation
    || (s.generation == previous.generation && s.sequence != 0 && previous.sequence != 0
        && s.sequence > previous.sequence)
  }

  datatype Fate = Accepted | Rejected(cause: Cause) | Repeated
  datatype Cause = NoResource | OtherEpoch | FencedOut | Regressed | Full

  function FateOf(s: State, o: Options, x: Sample): Fate {
    if x.resource == 0 then Rejected(NoResource)
    else if x.epoch != s.epoch then Rejected(OtherEpoch)
    else if x.publisher !in s.publishers || s.publishers[x.publisher].boot != x.boot then Rejected(FencedOut)
    else if (x.publisher, x.boot) in s.fences then Rejected(FencedOut)
    else if x.generation < s.publishers[x.publisher].lastGeneration then Rejected(Regressed)
    else if x.heartbeat then Accepted
    else if KeyOf(x) !in s.evidence && |s.evidence| >= o.maxEvidence then Rejected(Full)
    else if KeyOf(x) in s.evidence && !Newer(x, s.evidence[KeyOf(x)]) then Repeated
    else Accepted
  }

  function Seen(r: Registration, x: Sample): Registration {
    r.(lastGeneration := if x.generation > r.lastGeneration then x.generation else r.lastGeneration,
       lastSequence := if x.sequence > r.lastSequence then x.sequence else r.lastSequence)
  }

  function Took(s: State, o: Options, x: Sample): State {
    if !FateOf(s, o, x).Accepted? then s
    else
      s.(evidence := if x.heartbeat then s.evidence else s.evidence[KeyOf(x) := x],
         publishers := s.publishers[x.publisher := Seen(s.publishers[x.publisher], x)])
  }

  function Counted(t: Tally, f: Fate): Tally {
    match f
    case Accepted => t.(accepted := t.accepted + 1)
    case Repeated => t.(duplicate := t.duplicate + 1)
    case Rejected(cause) =>
      var u := t.(rejected := t.rejected + 1);
      match cause
      case NoResource => u
      case OtherEpoch => u.(epochMismatch := u.epochMismatch + 1)
      case FencedOut => u.(fenced := u.fenced + 1)
      case Regressed => u.(regressed := u.regressed + 1)
      case Full => u.(full := u.full + 1)
  }

  function Ingested(s: State, o: Options, xs: seq<Sample>): (State, Tally)
    decreases |xs|
  {
    if xs == [] then (s, NO_TALLY)
    else
      var (t, tally) := Ingested(s, o, xs[..|xs| - 1]);
      (Took(t, o, xs[|xs| - 1]), Counted(tally, FateOf(t, o, xs[|xs| - 1])))
  }

  // ---- Policy and topology --------------------------------------------------

  function AllAfter(domains: map<Id, H.Machine>, e: R.Event, rules: H.Rules): map<Id, H.Machine> {
    map d | d in domains :: R.After(domains[d], e, rules)
  }

  /** A change of authority: a new generation, no active intents, authoritative domains flagged. */
  function Invalidated(s: State): State {
    s.(generation := s.generation + 1, intents := map[],
       domains := AllAfter(s.domains, R.Invalidated, H.RulesOf(s.policy)))
  }

  function PolicyAnswer(s: State, policy: P.Policy): Answer {
    if !P.Valid(policy) then Refused(Invalid)
    else if s.closed then Refused(Closed)
    else if policy.version < s.policy.version then Refused(Backwards)
    else Done
  }

  function PolicySet(s: State, policy: P.Policy): State {
    if PolicyAnswer(s, policy).Done? then Invalidated(s.(policy := policy)) else s
  }

  function TopologySet(s: State, topology: T.Snapshot): State {
    if !T.Accepted(topology) || s.closed then s else Invalidated(s.(topology := Some(topology)))
  }

  // ---- Evaluation -----------------------------------------------------------

  /** The order the window is kept in. */
  predicate Before(a: EvidenceKey, b: EvidenceKey) {
    if a.resource != b.resource then a.resource < b.resource
    else if a.queue != b.queue then a.queue < b.queue
    else a.publisher < b.publisher
  }

  predicate Least(k: EvidenceKey, keys: set<EvidenceKey>) {
    k in keys && forall j | j in keys :: !Before(j, k)
  }

  lemma {:induction false} LeastExists(keys: set<EvidenceKey>)
    requires keys != {}
    ensures exists k :: Least(k, keys)
    decreases keys
  {
    var x :| x in keys;
    if keys == {x} {
      assert Least(x, keys);
    } else {
      LeastExists(keys - {x});
      var k :| Least(k, keys - {x});
      if Before(x, k) {
        forall j | j in keys
          ensures !Before(j, x)
        {
          BeforeTransitive(j, x, k);
        }
        assert Least(x, keys);
      } else {
        assert Least(k, keys);
      }
    }
  }

  lemma {:induction false} BeforeTransitive(j: EvidenceKey, x: EvidenceKey, k: EvidenceKey)
    ensures Before(j, x) && Before(x, k) ==> Before(j, k)
    ensures Before(j, x) ==> j != x
  {
  }

  lemma {:induction false} LeastUnique(j: EvidenceKey, k: EvidenceKey, keys: set<EvidenceKey>)
    requires Least(j, keys) && Least(k, keys)
    ensures j == k
  {
  }

  ghost function InOrder(keys: set<EvidenceKey>): (r: seq<EvidenceKey>)
    ensures forall k :: k in r <==> k in keys
  {
    if keys == {} then []
    else
      LeastExists(keys);
      var k :| Least(k, keys);
      [k] + InOrder(keys - {k})
  }

  /** The domain's members, none when they are not known. */
  function Members(topology: Option<T.Snapshot>, domain: Id): set<Id> {
    match topology
    case None => {}
    case Some(t) => T.DomainMembers(t.resources, domain)
  }

  predicate InScope(scope: set<Id>, x: Sample) {
    scope == {} || x.resource in scope
  }

  /** The samples under some keys of the window, those of the scope if one is known. */
  function Scoped(evidence: map<EvidenceKey, Sample>, keys: seq<EvidenceKey>, scope: set<Id>): (r: seq<Sample>)
    requires forall k | k in keys :: k in evidence
    ensures forall x | x in r :: exists k :: k in keys && evidence[k] == x
  {
    if keys == [] then []
    else
      var front, k := Scoped(evidence, keys[..|keys| - 1], scope), keys[|keys| - 1];
      assert keys == keys[..|keys| - 1] + [k];
      if InScope(scope, evidence[k]) then front + [evidence[k]] else front
  }

  function FirstOf(xs: seq<Sample>, bound: nat): seq<Sample> {
    if |xs| > bound then xs[..bound] else xs
  }

  /** `collect_evidence_locked`: the window's samples for a domain, in order, up to the batch bound. */
  ghost function Collected(s: State, domain: Id): seq<Sample> {
    FirstOf(Scoped(s.evidence, InOrder(s.evidence.Keys), Members(s.topology, domain)), MAX_BATCH)
  }

  /** What an evaluation is made of: the batch it was given, or the window. The context is
      this coordinator's: its epoch, policy and topology. */
  ghost function RequestFor(s: State, domain: Id, batch: Option<seq<Sample>>, now: Tick): W.Request {
    W.Request(domain, now, 0, match batch case Some(xs) => xs case None => Collected(s, domain), s.epoch, MAX_BATCH)
  }

  function MachineAt(s: State, domain: Id): H.Machine {
    if domain in s.domains then s.domains[domain] else H.FRESH
  }

  ghost function AnswerTo(s: State, domain: Id, batch: Option<seq<Sample>>, now: Tick): Option<W.Answer> {
    if s.closed then None
    else W.AnswerOf(s.topology, RequestFor(s, domain, batch, now), s.policy, MachineAt(s, domain))
  }

  /** An evaluation that answers commits the domain's machine; a non-authoritative outcome
      drops its intents. */
  ghost function EvaluatedTo(s: State, domain: Id, batch: Option<seq<Sample>>, now: Tick): State {
    match AnswerTo(s, domain, batch, now)
    case None => s
    case Some(a) => Committed(s, domain, a)
  }

  function Committed(s: State, domain: Id, a: W.Answer): State {
    s.(domains := s.domains[domain := a.machine],
       intents := if a.authoritative then s.intents else s.intents - {domain})
  }

  /** The answer's machine is the domain's, stepped once on the proposal. */
  lemma {:induction false} AnswerSteps(s: State, domain: Id, batch: Option<seq<Sample>>, now: Tick)
    requires AnswerTo(s, domain, batch, now).Some?
    ensures var a := AnswerTo(s, domain, batch, now).value;
            && a.machine == R.After(MachineAt(s, domain), R.Evaluated(a.proposal, now), H.RulesOf(s.policy))
            && (a.authoritative <==>
                  Authoritative(a.machine.state) && !a.machine.requiresRevalidation && a.proposal.hasValue)
  {
    hide H.Step, W.ScopeIn, V.Proposal, W.Queues, H.RulesOf, RequestFor;
    assert RequestFor(s, domain, batch, now).now == now by {
      RequestShape(s, domain, batch, now);
    }
  }

  lemma {:induction false} RequestShape(s: State, domain: Id, batch: Option<seq<Sample>>, now: Tick)
    ensures var q := RequestFor(s, domain, batch, now); q.now == now && q.domain == domain && q.epoch == s.epoch
  {
  }

  // ---- Plans and epochs -----------------------------------------------------

  function Unexpired(list: seq<L.Intent>, now: nat): (r: seq<L.Intent>)
    ensures forall i :: i in r <==> i in list && !L.Expired(i, now)
  {
    if list == [] then []
    else (if L.Expired(list[0], now) then [] else [list[0]]) + Unexpired(list[1..], now)
  }

  /** The newest intents within the bound. */
  function Trimmed(list: seq<L.Intent>, bound: nat): (r: seq<L.Intent>)
    ensures forall i | i in r :: i in list
    ensures |list| <= bound ==> r == list
  {
    if |list| > bound then list[|list| - bound..] else list
  }

  function Bound(list: seq<L.Intent>, a: L.Authority): (r: seq<L.Intent>)
    ensures forall i :: i in r <==> i in list && L.BoundTo(i, a)
  {
    if list == [] then []
    else
      var front, last := list[..|list| - 1], list[|list| - 1];
      assert list == front + [last];
      if L.BoundTo(last, a) then Bound(front, a) + [last] else Bound(front, a)
  }

  function ActiveAt(s: State, domain: Id): seq<L.Intent> {
    if domain in s.intents then s.intents[domain] else []
  }

  function ClassOf(rs: seq<T.Resource>, id: Id): Id {
    match T.Find(rs, id)
    case None => 0
    case Some(r) => r.servingClass
  }

  /** The domain's resources in order, each with its serving class. */
  function MembersOf(t: T.Snapshot, domain: Id): seq<L.Member> {
    var ids := T.Unique(T.Sort(W.IdsIn(t.resources, domain)));
    seq(|ids|, i requires 0 <= i < |ids| => L.Member(ids[i], ClassOf(t.resources, ids[i])))
  }

  /** The context an outcome is planned in: this coordinator's policy, topology, epoch and authority. */
  function PlanContext(s: State, o: Options, domain: Id, now: nat): L.Context {
    L.Context(s.policy, match s.topology case None => None case Some(t) => Some(MembersOf(t, domain)),
              now, s.epoch, AuthorityOf(s, o))
  }

  /** Planning keeps the unexpired intents within the bound and adds what the plan
      authorizes, each bound once more against the authority in force. */
  function Planned(s: State, o: Options, domain: Id, outcome: L.Outcome, now: nat): State {
    if s.closed then s
    else
      s.(intents := s.intents[domain := Retained(s, o, domain, now)
                                        + Bound(PlanAt(s, o, domain, outcome, now).authorized, AuthorityOf(s, o))])
  }

  function PlanAt(s: State, o: Options, domain: Id, outcome: L.Outcome, now: nat): L.Plan {
    L.PlanOf(PlanContext(s, o, outcome.domain, now), outcome, ActiveAt(s, domain))
  }

  function Retained(s: State, o: Options, domain: Id, now: nat): seq<L.Intent> {
    Trimmed(Unexpired(ActiveAt(s, domain), now), o.maxIntents)
  }

  function Incarnations(publishers: map<Id, Registration>): set<(Id, Id)> {
    set p | p in publishers :: (p, publishers[p].boot)
  }

  /** A new epoch fences every registered incarnation and forgets their evidence and all intents. */
  function Advanced(s: State): State {
    if s.closed then s
    else
      State(s.epoch + 1, s.generation + 1, s.policy, s.topology, map[],
            s.fences + Incarnations(s.publishers),
            map[], AllAfter(s.domains, R.EpochAdvanced, H.RulesOf(s.policy)), map[], false)
  }

  // ---- Steps and runs -------------------------------------------------------

  datatype Event =
    | Register(publisher: Id, boot: Id)
    | Leave(publisher: Id, boot: Id)
    | Fence(publisher: Id, boot: Id)
    | Ingest(samples: seq<Sample>)
    | SetPolicy(policy: P.Policy)
    | SetTopology(topology: T.Snapshot)
    | Evaluate(domain: Id, batch: Option<seq<Sample>>, now: Tick)
    | Plan(planDomain: Id, outcome: L.Outcome, planTick: nat)
    | AdvanceEpoch
    | Close

  ghost function Next(s: State, e: Event, o: Options): State {
    match e
    case Register(p, b) => Registered(s, o, p, b)
    case Leave(p, b) => Left(s, p, b)
    case Fence(p, b) => FencedOne(s, p, b)
    case Ingest(xs) => if s.closed || |xs| > MAX_BATCH then s else Ingested(s, o, xs).0
    case SetPolicy(policy) => PolicySet(s, policy)
    case SetTopology(topology) => TopologySet(s, topology)
    case Evaluate(d, batch, now) => EvaluatedTo(s, d, batch, now)
    case Plan(d, outcome, now) => Planned(s, o, d, outcome, now)
    case AdvanceEpoch => Advanced(s)
    case Close => s.(closed := true)
  }

  ghost function Run(s: State, es: seq<Event>, o: Options): State {
    if es == [] then s else Next(Run(s, es[..|es| - 1], o), es[|es| - 1], o)
  }

  /** What one step may do to fences, epoch and generation. */
  predicate Monotone(s: State, t: State) {
    s.fences <= t.fences && s.epoch <= t.epoch && s.generation <= t.generation
  }

  /** The ordering of a key's readings. */
  predicate Rises(before: Sample, after: Sample) {
    after.generation > before.generation || (after.generation == before.generation && after.sequence > before.sequence)
  }

  /** A key that stays is either untouched or strictly newer. */
  predicate Overwritten(s: State, t: State) {
    forall k | k in s.evidence && k in t.evidence :: t.evidence[k] == s.evidence[k] || Rises(s.evidence[k], t.evidence[k])
  }

  /** Intents stay bound while the authority stands and no list gains any. */
  lemma {:induction false} IntentsFrame(s: State, t: State, o: Options)
    requires IntentsOk(s, o) && AuthorityOf(t, o) == AuthorityOf(s, o)
    requires forall d | d in t.intents :: d in s.intents && t.intents[d] == s.intents[d]
    ensures IntentsOk(t, o)
  {
    hide L.BoundTo;
    forall d, i | d in t.intents && i in t.intents[d]
      ensures L.BoundTo(i, AuthorityOf(t, o))
    {
      assert d in s.intents && i in s.intents[d];
    }
  }

  lemma {:induction false} RegisterKeeps(s: State, o: Options, p: Id, b: Id)
    requires Inv(s, o)
    ensures var t := Registered(s, o, p, b); Inv(t, o) && Monotone(s, t) && Overwritten(s, t)
  {
    hide IntentsOk;
    var t := Registered(s, o, p, b);
    IntentsFrame(s, t, o);
    if RegisterAnswer(s, o, p, b).Done? {
      GrowsByOne(s.publishers, p, Registration(b, 0, 0));
    }
  }

  lemma {:induction false} GrowsByOne<K, V>(m: map<K, V>, k: K, v: V)
    ensures |m[k := v]| == if k in m then |m| else |m| + 1
  {
    if k in m {
      assert m[k := v].Keys == m.Keys;
    } else {
      assert m[k := v].Keys == m.Keys + {k};
    }
  }

  lemma {:induction false} ShrinksTo<K, V>(m: map<K, V>, n: map<K, V>)
    requires n.Keys <= m.Keys
    ensures |n| <= |m|
  {
    SubsetSize(n.Keys, m.Keys);
  }

  lemma {:induction false} SubsetSize<K>(a: set<K>, b: set<K>)
    requires a <= b
    ensures |a| <= |b|
    decreases a
  {
    if a != {} {
      var x :| x in a;
      SubsetSize(a - {x}, b - {x});
    }
  }

  lemma {:induction false} FenceKeeps(s: State, o: Options, p: Id, b: Id)
    requires Inv(s, o)
    ensures var t := FencedOne(s, p, b); Inv(t, o) && Monotone(s, t) && Overwritten(s, t)
  {
    hide IntentsOk, EvidenceOk, PublishersOk, Overwritten;
    hide FencedOne;
    var t := FencedOne(s, p, b);
    FenceFrame(s, o, p, b);
    IntentsFrame(s, t, o);
    ShrinksTo(s.evidence, t.evidence);
    ShrinksTo(s.publishers, t.publishers);
    FenceEvidence(s, p, b);
    FencePublishers(s, p, b);
  }

  lemma {:induction false} FenceFrame(s: State, o: Options, p: Id, b: Id)
    ensures var t := FencedOne(s, p, b);
            && t.intents == s.intents && AuthorityOf(t, o) == AuthorityOf(s, o) && s.fences <= t.fences
            && t.epoch == s.epoch && t.generation == s.generation
            && t.evidence.Keys <= s.evidence.Keys && t.publishers.Keys <= s.publishers.Keys
  {
  }

  lemma {:induction false} FenceEvidence(s: State, p: Id, b: Id)
    requires EvidenceOk(s)
    ensures EvidenceOk(FencedOne(s, p, b)) && Overwritten(s, FencedOne(s, p, b))
  {
  }

  lemma {:induction false} FencePublishers(s: State, p: Id, b: Id)
    requires PublishersOk(s)
    ensures PublishersOk(FencedOne(s, p, b))
  {
  }

  lemma {:induction false} TookKeeps(s: State, o: Options, x: Sample)
    requires Inv(s, o)
    ensures var t := Took(s, o, x);
            && Inv(t, o) && Monotone(s, t) && Overwritten(s, t) && s.evidence.Keys <= t.evidence.Keys
            && t.fences == s.fences && t.epoch == s.epoch
  {
    hide IntentsOk, EvidenceOk, PublishersOk, Overwritten, FateOf;
    IntentsFrame(s, Took(s, o, x), o);
    TookEvidence(s, o, x);
    TookPublishers(s, o, x);
  }

  lemma {:induction false} TookEvidence(s: State, o: Options, x: Sample)
    requires EvidenceOk(s) && |s.evidence| <= o.maxEvidence
    ensures var t := Took(s, o, x);
            EvidenceOk(t) && Overwritten(s, t) && s.evidence.Keys <= t.evidence.Keys && |t.evidence| <= o.maxEvidence
  {
    if FateOf(s, o, x).Accepted? {
      GrowsByOne(s.evidence, KeyOf(x), x);
    }
  }

  lemma {:induction false} TookPublishers(s: State, o: Options, x: Sample)
    requires PublishersOk(s) && |s.publishers| <= o.maxPublishers
    ensures var t := Took(s, o, x); PublishersOk(t) && |t.publishers| <= o.maxPublishers
  {
    if FateOf(s, o, x).Accepted? {
      GrowsByOne(s.publishers, x.publisher, Seen(s.publishers[x.publisher], x));
    }
  }

  lemma {:induction false} OverwrittenTwice(s: State, t: State, u: State)
    requires Overwritten(s, t) && Overwritten(t, u) && s.evidence.Keys <= t.evidence.Keys
    ensures Overwritten(s, u)
  {
  }

  /** Ingest keeps the invariant, overwrites only with newer readings, and accounts for
      every sample exactly once. */
  lemma {:induction false} IngestKeeps(s: State, o: Options, xs: seq<Sample>)
    requires Inv(s, o)
    ensures var (t, tally) := Ingested(s, o, xs);
            && Inv(t, o) && Monotone(s, t) && Overwritten(s, t) && s.evidence.Keys <= t.evidence.Keys
            && tally.accepted + tally.rejected + tally.duplicate == |xs|
            && tally.fenced + tally.epochMismatch + tally.regressed + tally.full <= tally.rejected
    decreases |xs|
  {
    hide Inv, FateOf, Took;
    if xs != [] {
      var front, x := xs[..|xs| - 1], xs[|xs| - 1];
      IngestKeeps(s, o, front);
      var t := Ingested(s, o, front).0;
      TookKeeps(t, o, x);
      OverwrittenTwice(s, t, Took(t, o, x));
    }
  }

  lemma {:induction false} PlannedKeeps(s: State, o: Options, domain: Id, outcome: L.Outcome, now: nat)
    requires Inv(s, o)
    ensures var t := Planned(s, o, domain, outcome, now); Inv(t, o) && Monotone(s, t) && Overwritten(s, t)
  {
    hide PlanAt, L.BoundTo, L.Expired;
  }

  lemma {:induction false} AdvancedKeeps(s: State, o: Options)
    requires Inv(s, o)
    ensures var t := Advanced(s); Inv(t, o) && Monotone(s, t) && Overwritten(s, t)
  {
    hide R.After;
  }

  /** Steps that touch neither evidence, epoch nor fences. */
  predicate Quiet(s: State, t: State) {
    && t.evidence == s.evidence && t.epoch == s.epoch && t.fences == s.fences && t.generation >= s.generation
    && (forall p | p in t.publishers :: p in s.publishers && t.publishers[p] == s.publishers[p])
    && (t.intents == map[]
        || (t.generation == s.generation && t.policy == s.policy
            && forall d | d in t.intents :: d in s.intents && t.intents[d] == s.intents[d]))
  }

  lemma {:induction false} QuietKeeps(s: State, t: State, o: Options)
    requires Inv(s, o) && Quiet(s, t)
    ensures Inv(t, o) && Monotone(s, t) && Overwritten(s, t)
  {
    hide IntentsOk, EvidenceOk, PublishersOk, Overwritten;
    EvidenceFrame(s, t);
    PublishersFrame(s, t);
    ShrinksTo(s.publishers, t.publishers);
    if t.intents == map[] {
      NoIntents(t, o);
    } else {
      IntentsFrame(s, t, o);
    }
  }

  lemma {:induction false} OthersKeep(s: State, e: Event, o: Options)
    requires Inv(s, o) && (e.Leave? || e.SetPolicy? || e.SetTopology? || e.Evaluate? || e.Close?)
    ensures var t := Next(s, e, o); Inv(t, o) && Monotone(s, t) && Overwritten(s, t)
  {
    hide Inv, Monotone, Overwritten, Quiet, Next;
    OthersQuiet(s, e, o);
    QuietKeeps(s, Next(s, e, o), o);
  }

  lemma {:induction false} OthersQuiet(s: State, e: Event, o: Options)
    requires e.Leave? || e.SetPolicy? || e.SetTopology? || e.Evaluate? || e.Close?
    ensures Quiet(s, Next(s, e, o))
  {
    hide Quiet, PolicySet, TopologySet, EvaluatedTo, Left;
    match e {
      case SetPolicy(policy) => PolicyQuiet(s, policy);
      case SetTopology(topology) => TopologyQuiet(s, topology);
      case Evaluate(d, batch, now) => EvaluatedQuiet(s, d, batch, now);
      case Leave(p, b) => LeftQuiet(s, p, b);
      case Close => CloseQuiet(s);
    }
  }

  lemma {:induction false} PolicyQuiet(s: State, policy: P.Policy)
    ensures Quiet(s, PolicySet(s, policy))
  {
    hide PolicyAnswer, AllAfter;
  }

  lemma {:induction false} TopologyQuiet(s: State, topology: T.Snapshot)
    ensures Quiet(s, TopologySet(s, topology))
  {
    hide T.Accepted, AllAfter;
  }

  lemma {:induction false} LeftQuiet(s: State, p: Id, b: Id)
    ensures Quiet(s, Left(s, p, b))
  {
  }

  lemma {:induction false} CloseQuiet(s: State)
    ensures Quiet(s, s.(closed := true))
  {
  }

  lemma {:induction false} EvaluatedQuiet(s: State, domain: Id, batch: Option<seq<Sample>>, now: Tick)
    ensures Quiet(s, EvaluatedTo(s, domain, batch, now))
  {
    hide AnswerTo;
  }

  lemma {:induction false} NoIntents(t: State, o: Options)
    requires t.intents == map[]
    ensures IntentsOk(t, o)
  {
  }

  lemma {:induction false} EvidenceFrame(s: State, t: State)
    requires EvidenceOk(s) && t.evidence == s.evidence && t.epoch == s.epoch && t.fences == s.fences
    ensures EvidenceOk(t) && Overwritten(s, t)
  {
  }

  lemma {:induction false} PublishersFrame(s: State, t: State)
    requires PublishersOk(s) && t.fences == s.fences
    requires forall p | p in t.publishers :: p in s.publishers && t.publishers[p] == s.publishers[p]
    ensures PublishersOk(t)
  {
  }

  /** Every step keeps the invariant; fences, epoch and generation only grow; and a key's
      reading is only ever replaced by a strictly newer one. */
  lemma {:induction false} StepKeeps(s: State, e: Event, o: Options)
    requires Inv(s, o)
    ensures var t := Next(s, e, o); Inv(t, o) && Monotone(s, t) && Overwritten(s, t)
  {
    hide Inv, Monotone, Overwritten, Registered, FencedOne, Planned, Advanced, Left, PolicySet, TopologySet, EvaluatedTo;
    match e {
      case Register(p, b) => RegisterKeeps(s, o, p, b);
      case Fence(p, b) => FenceKeeps(s, o, p, b);
      case Ingest(xs) =>
        if s.closed || |xs| > MAX_BATCH {
          Same(s);
        } else {
          IngestKeeps(s, o, xs);
        }
      case Plan(d, outcome, now) => PlannedKeeps(s, o, d, outcome, now);
      case AdvanceEpoch => AdvancedKeeps(s, o);
      case _ => OthersKeep(s, e, o);
    }
  }

  lemma {:induction false} Same(s: State)
    ensures Monotone(s, s) && Overwritten(s, s)
  {
  }

  lemma {:induction false} MonotoneTwice(s: State, t: State, u: State)
    requires Monotone(s, t) && Monotone(t, u)
    ensures Monotone(s, u)
  {
  }

  /** A fresh coordinator over recovered fences and domains. */
  predicate Started(s: State, o: Options) {
    s.publishers == map[] && s.evidence == map[] && s.intents == map[] && !s.closed
  }

  /** Over every run: evidence of this epoch and of no fenced incarnation, no fenced
      registration, a bounded window, intents bound to the live authority, and fences,
      epoch and generation that only grow. */
  lemma {:induction false} RunKeeps(s: State, es: seq<Event>, o: Options)
    requires Started(s, o)
    ensures Inv(Run(s, es, o), o) && Monotone(s, Run(s, es, o))
  {
    StartedInv(s, o);
    KeepsFrom(s, es, o);
  }

  lemma {:induction false} KeepsFrom(s: State, es: seq<Event>, o: Options)
    requires Inv(s, o)
    ensures Inv(Run(s, es, o), o) && Monotone(s, Run(s, es, o))
    decreases |es|
  {
    hide Next, Monotone, Inv;
    if es == [] {
      Same(s);
    } else {
      var front := es[..|es| - 1];
      KeepsFrom(s, front, o);
      StepKeeps(Run(s, front, o), es[|es| - 1], o);
      MonotoneTwice(s, Run(s, front, o), Run(s, es, o));
    }
  }

  lemma {:induction false} StartedInv(s: State, o: Options)
    requires Started(s, o)
    ensures Inv(s, o)
  {
  }

  /** Once fenced, an incarnation can neither register again nor have a sample accepted. */
  lemma {:induction false} FencedStaysOut(s: State, es: seq<Event>, o: Options, p: Id, b: Id, x: Sample)
    requires Inv(s, o) && (p, b) in s.fences && From(x, p, b)
    ensures var t := Run(s, es, o);
            && (p, b) in t.fences && RegisterAnswer(t, o, p, b).Refused?
            && !FateOf(t, o, x).Accepted? && FateOf(t, o, x) != Repeated
  {
    KeepsFrom(s, es, o);
  }

  /** Once the epoch has advanced, no incarnation registered before it registers again, and
      neither its samples nor any of an earlier epoch are accepted, whatever happens since. */
  lemma {:induction false} AdvanceShutsOut(s: State, es: seq<Event>, o: Options, p: Id, x: Sample)
    requires Inv(s, o) && !s.closed && p in s.publishers
    ensures var t := Run(Advanced(s), es, o);
            && RegisterAnswer(t, o, p, s.publishers[p].boot).Refused?
            && (From(x, p, s.publishers[p].boot) || x.epoch <= s.epoch ==> !FateOf(t, o, x).Accepted?)
  {
    hide Run, Inv, FateOf;
    AdvancedKeeps(s, o);
    var b := s.publishers[p].boot;
    FencedStaysOut(Advanced(s), es, o, p, b, x.(publisher := p, boot := b));
    KeepsFrom(Advanced(s), es, o);
    if x.epoch <= s.epoch {
      OldEpochRefused(Run(Advanced(s), es, o), o, x);
    }
  }

  lemma {:induction false} OldEpochRefused(t: State, o: Options, x: Sample)
    requires x.epoch != t.epoch
    ensures !FateOf(t, o, x).Accepted?
  {
  }

  // ---- Evaluations of the window --------------------------------------------

  /** Every collected sample is of this epoch and of an incarnation not fenced. */
  lemma {:induction false} CollectedIsCurrent(s: State, o: Options, domain: Id)
    requires Inv(s, o)
    ensures forall x | x in Collected(s, domain) :: x.epoch == s.epoch && (x.publisher, x.boot) !in s.fences
  {
    hide InOrder, Members;
    var all := Scoped(s.evidence, InOrder(s.evidence.Keys), Members(s.topology, domain));
    forall x | x in Collected(s, domain)
      ensures x.epoch == s.epoch && (x.publisher, x.boot) !in s.fences
    {
      assert x in all;
    }
  }

  /** A domain found flagged has an authoritative outcome only from an evaluation that
      committed a transition, and otherwise stays flagged. */
  lemma {:induction false} RevalidatedByCommit(s: State, domain: Id, batch: Option<seq<Sample>>, now: Tick)
    requires MachineAt(s, domain).requiresRevalidation && AnswerTo(s, domain, batch, now).Some?
    ensures var a := AnswerTo(s, domain, batch, now).value;
            && (a.authoritative <==> !a.machine.requiresRevalidation)
            && (a.authoritative ==>
                  && R.Commits(MachineAt(s, domain), R.Evaluated(a.proposal, now), H.RulesOf(s.policy))
                  && a.machine.lastChange == now && a.proposal.hasValue)
  {
    hide AnswerTo, H.RulesOf;
    AnswerSteps(s, domain, batch, now);
  }

  // ---- Planning twice -------------------------------------------------------

  /** Planning an outcome a second time at the same tick adds no intent exactly when the
      first plan was repeatable over what it left active: whatever a rule was due, the plan
      has an intent of its kind there, and whatever a standing intent held back, an
      untrimmed one still does. */
  lemma {:induction false} PlanTwiceExact(s: State, o: Options, domain: Id, outcome: L.Outcome, now: nat)
    requires !s.closed
    ensures var t := Planned(s, o, domain, outcome, now);
            PlanAt(t, o, domain, outcome, now).authorized == []
            <==> s.policy.limits.interventionsPerPlan == 0
                 || L.Repeatable(PlanContext(s, o, outcome.domain, now), outcome, ActiveAt(s, domain), ActiveAt(t, domain))
  {
    hide L.PlanOf, L.Expired, L.BoundTo, L.Repeatable, MembersOf;
    var c := PlanContext(s, o, outcome.domain, now);
    var t := Planned(s, o, domain, outcome, now);
    assert PlanContext(t, o, outcome.domain, now) == c;
    AllBound(s, o, domain, outcome, now);
    L.ReplanExact(c, outcome, ActiveAt(s, domain), ActiveAt(t, domain));
  }

  /** So it is when no rule was skipped for the limit and no active intent was trimmed. */
  lemma {:induction false} PlanTwiceIsOnce(s: State, o: Options, domain: Id, outcome: L.Outcome, now: nat)
    requires !s.closed && !PlanAt(s, o, domain, outcome, now).skipped
    requires |Unexpired(ActiveAt(s, domain), now)| <= o.maxIntents
    ensures PlanAt(Planned(s, o, domain, outcome, now), o, domain, outcome, now).authorized == []
  {
    hide L.PlanOf, L.Expired, L.BoundTo, L.Repeatable, MembersOf;
    var t := Planned(s, o, domain, outcome, now);
    AllBound(s, o, domain, outcome, now);
    L.ReplanAuthorizesNothing(PlanContext(s, o, outcome.domain, now), outcome, ActiveAt(s, domain), ActiveAt(t, domain));
    PlanTwiceExact(s, o, domain, outcome, now);
  }

  /** Every authorized intent passes the second look at the authority in force. */
  lemma {:induction false} AllBound(s: State, o: Options, domain: Id, outcome: L.Outcome, now: nat)
    requires !s.closed
    ensures forall i | i in PlanAt(s, o, domain, outcome, now).authorized ::
              i in ActiveAt(Planned(s, o, domain, outcome, now), domain)
  {
    hide L.PlanOf, L.BoundTo, MembersOf;
    var c := PlanContext(s, o, outcome.domain, now);
    forall i | i in PlanAt(s, o, domain, outcome, now).authorized
      ensures i in ActiveAt(Planned(s, o, domain, outcome, now), domain)
    {
      AuthorizedBound(c, outcome, ActiveAt(s, domain), i);
    }
  }

  lemma {:induction false} AuthorizedBound(c: L.Context, outcome: L.Outcome, active: seq<L.Intent>, i: L.Intent)
    requires i in L.PlanOf(c, outcome, active).authorized
    requires c.authority.epoch == c.epoch && c.authority.policy == c.policy.id
        && c.authority.fingerprint == c.policy.fingerprint
    ensures L.BoundTo(i, c.authority)
  {
    hide L.PlanOf, L.Targets, L.FreshEvidence, L.IsCovered, L.Active, L.ValidIntent;
    L.PlanIsSound(c, outcome, active, i);
  }

  // ---- The coordinator object -----------------------------------------------

  lemma {:induction false} IngestedNext(s: State, o: Options, xs: seq<Sample>, i: nat)
    requires i < |xs|
    ensures var (t, tally) := Ingested(s, o, xs[..i]);
            Ingested(s, o, xs[..i + 1]) == (Took(t, o, xs[i]), Counted(tally, FateOf(t, o, xs[i])))
  {
    var ys := xs[..i + 1];
    assert ys[..|ys| - 1] == xs[..i] && ys[|ys| - 1] == xs[i];
  }

  lemma {:induction false} InOrderNext(keys: set<EvidenceKey>, k: EvidenceKey)
    requires Least(k, keys)
    ensures InOrder(keys) == [k] + InOrder(keys - {k})
  {
    var j :| Least(j, keys) && InOrder(keys) == [j] + InOrder(keys - {j});
    LeastUnique(j, k, keys);
  }

  lemma {:induction false} InOrderNone()
    ensures InOrder({}) == []
  {
  }

  lemma {:induction false} ScopedMore(evidence: map<EvidenceKey, Sample>, done: seq<EvidenceKey>,
                                      rest: seq<EvidenceKey>, scope: set<Id>)
    requires forall k | k in done + rest :: k in evidence
    ensures (forall k | k in done :: k in evidence) && Scoped(evidence, done, scope) <= Scoped(evidence, done + rest, scope)
    decreases |rest|
  {
    assert forall k | k in done :: k in done + rest;
    if rest == [] {
      assert done + rest == done;
    } else {
      var front := rest[..|rest| - 1];
      assert (done + rest)[..|done + rest| - 1] == done + front;
      ScopedMore(evidence, done, front, scope);
    }
  }

  /** The loop over the window, key by key in order, stopping at the batch bound. */
  method CollectFrom(evidence: map<EvidenceKey, Sample>, scope: set<Id>) returns (samples: seq<Sample>)
    ensures samples == FirstOf(Scoped(evidence, InOrder(evidence.Keys), scope), MAX_BATCH)
  {
    hide InOrder, Least, Scoped;
    ghost var all := InOrder(evidence.Keys);
    ghost var done: seq<EvidenceKey> := [];
    samples := [];
    var left := evidence.Keys;
    ScopedNone(evidence, scope);
    while left != {}
      invariant left <= evidence.Keys && all == done + InOrder(left)
      invariant samples == Scoped(evidence, done, scope) && |samples| < MAX_BATCH
    {
      LeastExists(left);
      var k :| Least(k, left);
      InOrderNext(left, k);
      assert k in left by {
        LeastIn(k, left);
      }
      assert all == (done + [k]) + InOrder(left - {k});
      ScopedNext(evidence, done, k, scope);
      done := done + [k];
      left := left - {k};
      if scope != {} && evidence[k].resource !in scope {
        continue;
      }
      samples := samples + [evidence[k]];
      if |samples| >= MAX_BATCH {
        ScopedMore(evidence, done, InOrder(left), scope);
        return;
      }
    }
    InOrderNone();
    assert all == done;
  }

  lemma {:induction false} ScopedNone(evidence: map<EvidenceKey, Sample>, scope: set<Id>)
    ensures Scoped(evidence, [], scope) == []
  {
  }

  lemma {:induction false} LeastIn(k: EvidenceKey, keys: set<EvidenceKey>)
    requires Least(k, keys)
    ensures k in keys
  {
  }

  lemma {:induction false} ScopedNext(evidence: map<EvidenceKey, Sample>, done: seq<EvidenceKey>, k: EvidenceKey,
                                      scope: set<Id>)
    requires k in evidence && forall j | j in done :: j in evidence
    ensures Scoped(evidence, done + [k], scope)
         == Scoped(evidence, done, scope) + if InScope(scope, evidence[k]) then [evidence[k]] else []
  {
    assert (done + [k])[..|done + [k]| - 1] == done;
  }

  /** The planner's targets: the domain's resources with their records. */
  method ListMembers(index: T.TopologyIndex, domain: Id) returns (list: seq<L.Member>)
    requires index.Indexed()
    ensures list == MembersOf(index.snapshot, domain)
  {
    hide T.Sort, T.Unique, T.Lists, T.DomainMembers, W.IdsIn, T.Valid, T.Find, T.TopologyIndex.Indexed;
    var ids := index.DomainResources(domain);
    W.MembersListed(index.snapshot.resources, domain, ids);
    list := [];
    for i := 0 to |ids|
      invariant |list| == i
      invariant forall k | 0 <= k < i :: list[k] == L.Member(ids[k], ClassOf(index.snapshot.resources, ids[k]))
    {
      var record := index.Record(ids[i]);
      list := list + [L.Member(ids[i], if record.None? then 0 else record.value.servingClass)];
    }
    assert list == MembersOf(index.snapshot, domain);
  }

  class Coordinator {
    const options: Options
    var epoch: Id
    var generation: Id
    var policy: P.Policy
    var index: T.TopologyIndex?
    var publishers: map<Id, Registration>
    var fences: set<(Id, Id)>
    var evidence: map<EvidenceKey, Sample>
    var domains: map<Id, H.Machine>
    var intents: map<Id, seq<L.Intent>>
    var closed: bool

    ghost function Now(): State
      reads this
    {
      State(epoch, generation, policy, W.TopologyOf(index), publishers, fences, evidence, domains, intents, closed)
    }

    /** The policy passed validation and the index agrees with its topology. */
    ghost predicate Valid()
      reads this
    {
      P.Valid(policy) && (index != null ==> index.Indexed())
    }

    constructor (start: State, topology: T.TopologyIndex?, opts: Options)
      requires P.Valid(start.policy) && W.TopologyOf(topology) == start.topology
      requires topology != null ==> topology.Indexed()
      ensures Valid() && Now() == start && options == opts
    {
      options := opts;
      epoch, generation, policy, index := start.epoch, start.generation, start.policy, topology;
      publishers, fences, evidence := start.publishers, start.fences, start.evidence;
      domains, intents, closed := start.domains, start.intents, start.closed;
    }

    method RegisterPublisher(p: Id, b: Id) returns (answer: Answer)
      modifies this`publishers
      ensures answer == RegisterAnswer(old(Now()), options, p, b)
      ensures Now() == Registered(old(Now()), options, p, b)
    {
      if p == 0 || b == 0 {
        return Refused(NoIdentity);
      }
      if closed {
        return Refused(Closed);
      }
      if (p, b) in fences {
        return Refused(Fenced);
      }
      if |publishers| >= options.maxPublishers && p !in publishers {
        return Refused(TooMany);
      }
      publishers := publishers[p := Registration(b, 0, 0)];
      answer := Done;
    }

    /** Unregister: without a reason the incarnation leaves, otherwise it is fenced;
        a coordinator restart is no reason. */
    method UnregisterPublisher(p: Id, b: Id, reason: nat) returns (answer: Answer)
      modifies this`publishers, this`fences, this`evidence
      ensures answer == if closed then Refused(Closed) else if reason == 1 then Refused(BadReason)
                        else if reason != 0 && (p == 0 || b == 0) then Refused(NoIdentity) else Done
      ensures Now() == if reason == 1 then old(Now()) else if reason == 0 then Left(old(Now()), p, b)
                       else FencedOne(old(Now()), p, b)
    {
      if closed {
        return Refused(Closed);
      }
      if reason == 1 {
        return Refused(BadReason);
      }
      if reason == 0 {
        if p in publishers && publishers[p].boot == b {
          publishers := publishers - {p};
        }
        return Done;
      }
      answer := FencePublisher(p, b);
    }

    method FencePublisher(p: Id, b: Id) returns (answer: Answer)
      modifies this`publishers, this`fences, this`evidence
      ensures answer == if closed then Refused(Closed) else if p == 0 || b == 0 then Refused(NoIdentity) else Done
      ensures Now() == FencedOne(old(Now()), p, b)
    {
      if closed {
        return Refused(Closed);
      }
      if p == 0 || b == 0 {
        return Refused(NoIdentity);
      }
      if p in publishers && publishers[p].boot == b {
        publishers := publishers - {p};
      }
      fences := fences + {(p, b)};
      evidence := WithoutEvidence(evidence, p, b);
      answer := Done;
    }

    /** The sample loop; every sample is accepted, rejected or a duplicate. */
    method IngestBatch(xs: seq<Sample>) returns (tally: Option<Tally>)
      modifies this`publishers, this`evidence
      ensures tally.None? <==> closed || |xs| > MAX_BATCH
      ensures Now() == Next(old(Now()), Ingest(xs), options)
      ensures tally.Some? ==> tally.value == Ingested(old(Now()), options, xs).1
    {
      hide Counted;
      if closed || |xs| > MAX_BATCH {
        return None;
      }
      var t := NO_TALLY;
      for i := 0 to |xs|
        invariant (Now(), t) == Ingested(old(Now()), options, xs[..i])
      {
        IngestedNext(old(Now()), options, xs, i);
        var fate := IngestSample(xs[i]);
        t := Counted(t, fate);
      }
      assert xs[..|xs|] == xs;
      tally := Some(t);
    }

    method IngestSample(x: Sample) returns (fate: Fate)
      modifies this`publishers, this`evidence
      ensures fate == FateOf(old(Now()), options, x) && Now() == Took(old(Now()), options, x)
    {
      if x.resource == 0 {
        return Rejected(NoResource);
      }
      if x.epoch != epoch {
        return Rejected(OtherEpoch);
      }
      if x.publisher !in publishers || publishers[x.publisher].boot != x.boot {
        return Rejected(FencedOut);
      }
      if (x.publisher, x.boot) in fences {
        return Rejected(FencedOut);
      }
      var registration := publishers[x.publisher];
      if x.generation < registration.lastGeneration {
        return Rejected(Regressed);
      }
      if !x.heartbeat {
        var key := KeyOf(x);
        if key !in evidence && |evidence| >= options.maxEvidence {
          return Rejected(Full);
        }
        if key in evidence && !Newer(x, evidence[key]) {
          return Repeated;
        }
        evidence := evidence[key := x];
      }
      publishers := publishers[x.publisher := Seen(registration, x)];
      fate := Accepted;
    }

    /** A change of authority. */
    method InvalidateGenerations()
      modifies this`generation, this`intents, this`domains
      ensures Now() == Invalidated(old(Now()))
    {
      generation := generation + 1;
      intents := map[];
      domains := AllAfter(domains, R.Invalidated, H.RulesOf(policy));
    }

    method InstallPolicy(next: P.Policy) returns (answer: Answer)
      requires Valid()
      modifies this`policy, this`generation, this`intents, this`domains
      ensures Valid() && Now() == PolicySet(old(Now()), next) && answer == PolicyAnswer(old(Now()), next)
    {
      hide P.Valid, AllAfter;
      var ok := P.ValidatePolicy(next);
      if !ok {
        return Refused(Invalid);
      }
      if closed {
        return Refused(Closed);
      }
      if next.version < policy.version {
        return Refused(Backwards);
      }
      policy := next;
      InvalidateGenerations();
      answer := Done;
    }

    method InstallTopology(topology: T.Snapshot) returns (answer: Answer)
      requires Valid()
      modifies this`index, this`generation, this`intents, this`domains
      ensures Valid() && Now() == TopologySet(old(Now()), topology)
      ensures answer == if !T.Accepted(topology) then Refused(Invalid) else if closed then Refused(Closed) else Done
    {
      hide P.Valid, T.Accepted, T.Valid, AllAfter;
      T.AcceptedIsValid(topology);
      var verdict, built := T.TopologyIndex.Build(topology);
      if built == null {
        return Refused(Invalid);
      }
      if closed {
        return Refused(Closed);
      }
      index := built;
      InvalidateGenerations();
      answer := Done;
    }

    method CollectEvidence(domain: Id) returns (samples: seq<Sample>)
      requires Valid()
      ensures samples == Collected(Now(), domain)
    {
      hide P.Valid;
      var scope := MembersNow(domain);
      samples := CollectFrom(evidence, scope);
    }

    method MembersNow(domain: Id) returns (scope: set<Id>)
      requires Valid()
      ensures scope == Members(Now().topology, domain)
    {
      if index == null {
        return {};
      }
      var members := index.DomainResources(domain);
      scope := set x | x in members;
    }

    /** Evaluate the given batch, or the window, and commit the outcome. */
    method EvaluateDomain(domain: Id, batch: Option<seq<Sample>>, now: Tick) returns (r: Option<W.Evaluated>)
      requires Valid()
      modifies this`domains, this`intents
      ensures Valid() && Now() == EvaluatedTo(old(Now()), domain, batch, now)
      ensures r.None? <==> AnswerTo(old(Now()), domain, batch, now).None?
      ensures r.Some? ==> W.Answer(r.value.proposal, r.value.machine, r.value.result, r.value.authoritative)
                          == AnswerTo(old(Now()), domain, batch, now).value
    {
      hide W.AnswerOf, W.Reports, P.Valid, Collected;
      if closed {
        return None;
      }
      var samples;
      match batch {
        case Some(xs) => samples := xs;
        case None => samples := CollectEvidence(domain);
      }
      var prior := if domain in domains then domains[domain] else H.FRESH;
      r := W.Evaluate(index, W.Request(domain, now, 0, samples, epoch, MAX_BATCH), policy, prior);
      if r.None? {
        return;
      }
      domains := domains[domain := r.value.machine];
      if !r.value.authoritative {
        intents := intents - {domain};
      }
    }

    /** The planning context's members, read off the index. */
    method PlanMembers(domain: Id) returns (members: Option<seq<L.Member>>)
      requires Valid()
      ensures members == match Now().topology case None => None case Some(t) => Some(MembersOf(t, domain))
    {
      hide MembersOf, P.Valid;
      if index == null {
        return None;
      }
      var list := ListMembers(index, domain);
      members := Some(list);
    }

    /** Plan an outcome and keep what stays bound to the authority in force. */
    method PlanOutcome(domain: Id, outcome: L.Outcome, now: nat) returns (plan: Option<L.Plan>)
      requires Valid()
      modifies this`intents
      ensures Valid() && Now() == Planned(old(Now()), options, domain, outcome, now)
      ensures plan == if closed then None else Some(PlanAt(old(Now()), options, domain, outcome, now))
    {
      hide L.PlanOf, L.BoundTo, L.Expired, MembersOf, P.Valid;
      if closed {
        return None;
      }
      var authority := L.Authority(epoch, generation, policy.id, policy.fingerprint, options.granted, options.denied, 0);
      var members := PlanMembers(outcome.domain);
      var active := if domain in intents then intents[domain] else [];
      var made := L.MakePlan(L.Context(policy, members, now, epoch, authority), outcome, active);
      var retained := Trimmed(Unexpired(active, now), options.maxIntents);
      var bound := KeepBound(made.authorized, authority);
      intents := intents[domain := retained + bound];
      plan := Some(made);
    }

    /** Advance the epoch: fence every registered incarnation, forget evidence and intents,
        demote the domains. */
    method AdvanceEpochNow() returns (answer: Answer)
      modifies this`epoch, this`generation, this`publishers, this`fences, this`evidence, this`intents, this`domains
      ensures Now() == Advanced(old(Now())) && answer == if closed then Refused(Closed) else Done
    {
      hide AllAfter, H.RulesOf, W.TopologyOf, Incarnations;
      if closed {
        return Refused(Closed);
      }
      epoch, generation := epoch + 1, generation + 1;
      var records := FenceRecords(publishers);
      publishers, evidence, intents := map[], map[], map[];
      domains := AllAfter(domains, R.EpochAdvanced, H.RulesOf(policy));
      fences := fences + records;
      answer := Done;
    }
  }

  /** The loop that binds each authorized intent once more. */
  method KeepBound(list: seq<L.Intent>, a: L.Authority) returns (bound: seq<L.Intent>)
    ensures bound == Bound(list, a)
  {
    hide L.BoundTo;
    bound := [];
    for i := 0 to |list|
      invariant bound == Bound(list[..i], a)
    {
      BoundNext(list, a, i);
      if L.BoundTo(list[i], a) {
        bound := bound + [list[i]];
      }
    }
    assert list[..|list|] == list;
  }

  method FenceRecords(publishers: map<Id, Registration>) returns (records: set<(Id, Id)>)
    ensures records == Incarnations(publishers)
  {
    var left := publishers.Keys;
    records := {};
    while left != {}
      invariant left <= publishers.Keys
      invariant records == set p | p in publishers && p !in left :: (p, publishers[p].boot)
    {
      var p :| p in left;
      left := left - {p};
      records := records + {(p, publishers[p].boot)};
    }
  }

  /** The loop that drops an incarnation's evidence. */
  method WithoutEvidence(evidence: map<EvidenceKey, Sample>, p: Id, b: Id) returns (kept: map<EvidenceKey, Sample>)
    ensures kept == map k | k in evidence && !From(evidence[k], p, b) :: evidence[k]
  {
    var left := evidence.Keys;
    kept := evidence;
    while left != {}
      invariant left <= evidence.Keys
      invariant forall k :: k in kept <==> k in evidence && (k in left || !From(evidence[k], p, b))
      invariant forall k | k in kept :: kept[k] == evidence[k]
    {
      var k :| k in left;
      left := left - {k};
      if From(kept[k], p, b) {
        kept := kept - {k};
      }
    }
  }

  lemma {:induction false} BoundNext(list: seq<L.Intent>, a: L.Authority, i: nat)
    requires i < |list|
    ensures Bound(list[..i + 1], a) == Bound(list[..i], a) + if L.BoundTo(list[i], a) then [list[i]] else []
  {
    assert list[..i + 1][..i] == list[..i];
  }
}
