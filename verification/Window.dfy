/** The evidence window, both ways: which samples of a batch are taken, what each key holds
    afterwards, and what an evaluation collects; and what the other locked sections leave
    behind (src/fabric/fabric.cpp). */
module Window {
  import opened Words
  import opened Model
  import opened Fabric
  import H = Hysteresis
  import R = HysteresisRuns
  import L = Planner
  import P = Policy
  import T = Topology
  import W = Evaluation

  // ---- The fate of a sample -------------------------------------------------

  /** The sample's incarnation is the one registered and is not fenced. */
  predicate Enrolled(s: State, x: Sample) {
    x.publisher in s.publishers && s.publishers[x.publisher].boot == x.boot && (x.publisher, x.boot) !in s.fences
  }

  /** The sample is of this epoch, names a resource, and comes from a live incarnation. */
  predicate Welcome(s: State, x: Sample) {
    x.resource != 0 && x.epoch == s.epoch && Enrolled(s, x)
  }

  predicate InStep(s: State, x: Sample)
    requires Enrolled(s, x)
  {
    x.generation >= s.publishers[x.publisher].lastGeneration
  }

  /** What the sample's key holds is of an older generation, or of the same one with both
      sequences set and the old one smaller. */
  predicate Outdates(x: Sample, held: Sample) {
    held.generation < x.generation || (held.generation == x.generation && 0 < held.sequence < x.sequence)
  }

  predicate Holds(s: State, resource: Id, queue: Id, publisher: Id) {
    EvidenceKey(resource, queue, publisher) in s.evidence
  }

  /** The fate of a sample, both ways, read off the registration, the fences and the window. */
  lemma {:induction false} FateExact(s: State, o: Options, x: Sample)
    ensures var f, held := FateOf(s, o, x), Holds(s, x.resource, x.queue, x.publisher);
            && (f.Accepted? <==>
                  && Welcome(s, x) && InStep(s, x)
                  && (x.heartbeat
                      || if held then Outdates(x, s.evidence[EvidenceKey(x.resource, x.queue, x.publisher)])
                         else |s.evidence| < o.maxEvidence))
            && (f == Rejected(NoResource) <==> x.resource == 0)
            && (f == Rejected(OtherEpoch) <==> x.resource != 0 && x.epoch != s.epoch)
            && (f == Rejected(FencedOut) <==> x.resource != 0 && x.epoch == s.epoch && !Enrolled(s, x))
            && (f == Rejected(Regressed) <==> Welcome(s, x) && !InStep(s, x))
            && (f == Rejected(Full) <==>
                  Welcome(s, x) && InStep(s, x) && !x.heartbeat && !held && |s.evidence| >= o.maxEvidence)
            && (f.Repeated? <==>
                  && Welcome(s, x) && InStep(s, x) && !x.heartbeat && held
                  && !Outdates(x, s.evidence[EvidenceKey(x.resource, x.queue, x.publisher)]))
  {
  }

  // ---- A batch --------------------------------------------------------------

  /** The state the sample at a position of a batch meets. */
  function Met(s: State, o: Options, xs: seq<Sample>, i: nat): State
    requires i <= |xs|
  {
    Ingested(s, o, xs[..i]).0
  }

  function FateAt(s: State, o: Options, xs: seq<Sample>, i: nat): Fate
    requires i < |xs|
  {
    FateOf(Met(s, o, xs, i), o, xs[i])
  }

  /** The sample at a position was taken into the window. */
  predicate Stored(s: State, o: Options, xs: seq<Sample>, i: int) {
    0 <= i < |xs| && FateAt(s, o, xs, i).Accepted? && !xs[i].heartbeat
  }

  lemma {:induction false} Earlier(s: State, o: Options, xs: seq<Sample>, i: nat)
    requires i < |xs|
    ensures var front := xs[..|xs| - 1];
            && Met(s, o, xs, i) == (if i < |front| then Met(s, o, front, i) else Ingested(s, o, front).0)
            && (i < |front| ==> front[i] == xs[i] && FateAt(s, o, front, i) == FateAt(s, o, xs, i))
  {
    hide FateOf, Ingested;
    var front := xs[..|xs| - 1];
    if i < |front| {
      assert front[..i] == xs[..i];
    }
  }

  /** The reading is one of the batch that was stored under the key. */
  ghost predicate FromBatch(s: State, o: Options, xs: seq<Sample>, k: EvidenceKey, x: Sample) {
    k == EvidenceKey(x.resource, x.queue, x.publisher) && exists i :: Stored(s, o, xs, i) && xs[i] == x
  }

  /** Under the sample's key is the sample, or one that rises above it. */
  predicate Covered(t: State, x: Sample) {
    && EvidenceKey(x.resource, x.queue, x.publisher) in t.evidence
    && var held := t.evidence[EvidenceKey(x.resource, x.queue, x.publisher)];
       held == x || Rises(x, held)
  }

  /** Every key holds what it held or a sample of the batch that was stored. */
  ghost predicate Accounted(s: State, o: Options, xs: seq<Sample>) {
    var t := Ingested(s, o, xs).0;
    && (forall k | k in s.evidence :: k in t.evidence)
    && forall k | k in t.evidence ::
         || (k in s.evidence && t.evidence[k] == s.evidence[k])
         || FromBatch(s, o, xs, k, t.evidence[k])
  }

  /** Every stored sample is under its key, or one that rises above it is. */
  ghost predicate Kept(s: State, o: Options, xs: seq<Sample>) {
    forall i | 0 <= i < |xs| && Stored(s, o, xs, i) :: Covered(Ingested(s, o, xs).0, xs[i])
  }

  lemma {:induction false} TookMeans(t: State, o: Options, x: Sample)
    ensures var u, f := Took(t, o, x), FateOf(t, o, x);
            && u.epoch == t.epoch && u.fences == t.fences
            && (f.Accepted? && !x.heartbeat ==> u.evidence == t.evidence[KeyOf(x) := x])
            && (!f.Accepted? || x.heartbeat ==> u.evidence == t.evidence)
            && (f.Accepted? && !x.heartbeat && KeyOf(x) in t.evidence ==> Rises(t.evidence[KeyOf(x)], x))
  {
  }

  /** One sample further: what was stored before still is, and the last one is when it is accepted. */
  lemma {:induction false} OneMore(s: State, o: Options, xs: seq<Sample>)
    requires xs != []
    ensures var front, n := xs[..|xs| - 1], |xs| - 1;
            var t, u, x := Ingested(s, o, front).0, Ingested(s, o, xs).0, xs[n];
            && (forall i | 0 <= i < n :: Stored(s, o, xs, i) <==> Stored(s, o, front, i))
            && (forall i | 0 <= i < n :: front[i] == xs[i])
            && (if Stored(s, o, xs, n) then u.evidence == t.evidence[KeyOf(x) := x] else u.evidence == t.evidence)
            && (Stored(s, o, xs, n) && KeyOf(x) in t.evidence ==> Rises(t.evidence[KeyOf(x)], x))
  {
    hide FateOf, Took;
    var front, n := xs[..|xs| - 1], |xs| - 1;
    TookMeans(Ingested(s, o, front).0, o, xs[n]);
    Earlier(s, o, xs, n);
    forall i | 0 <= i < n
      ensures Stored(s, o, xs, i) <==> Stored(s, o, front, i)
    {
      Earlier(s, o, xs, i);
    }
  }

  lemma {:induction false} FromBatchMore(s: State, o: Options, xs: seq<Sample>, k: EvidenceKey, x: Sample)
    requires xs != []
    ensures FromBatch(s, o, xs[..|xs| - 1], k, x) ==> FromBatch(s, o, xs, k, x)
    ensures Stored(s, o, xs, |xs| - 1) ==> FromBatch(s, o, xs, KeyOf(xs[|xs| - 1]), xs[|xs| - 1])
  {
    hide Ingested, FateAt;
    OneMore(s, o, xs);
    var front := xs[..|xs| - 1];
    if FromBatch(s, o, front, k, x) {
      var i :| Stored(s, o, front, i) && front[i] == x;
      assert Stored(s, o, xs, i) && xs[i] == x;
    }
  }

  lemma {:induction false} BatchAccounted(s: State, o: Options, xs: seq<Sample>)
    ensures Accounted(s, o, xs)
    decreases |xs|
  {
    hide Stored, KeyOf, FromBatch;
    if xs != [] {
      var front, n := xs[..|xs| - 1], |xs| - 1;
      BatchAccounted(s, o, front);
      OneMore(s, o, xs);
      hide Ingested;
      var t, u := Ingested(s, o, front).0, Ingested(s, o, xs).0;
      forall k | k in u.evidence
        ensures (k in s.evidence && u.evidence[k] == s.evidence[k]) || FromBatch(s, o, xs, k, u.evidence[k])
      {
        FromBatchMore(s, o, xs, k, u.evidence[k]);
      }
    }
  }

  lemma {:induction false} StoredIn(s: State, o: Options, xs: seq<Sample>, i: int)
    requires Stored(s, o, xs, i)
    ensures 0 <= i < |xs|
  {
  }

  lemma {:induction false} CoveredMore(t: State, u: State, x: Sample, y: Sample)
    requires Covered(t, x) && u.evidence == t.evidence[KeyOf(y) := y]
    requires KeyOf(y) in t.evidence ==> Rises(t.evidence[KeyOf(y)], y)
    ensures Covered(u, x)
  {
  }

  lemma {:induction false} CoveredSame(t: State, u: State, x: Sample)
    requires Covered(t, x) && u.evidence == t.evidence
    ensures Covered(u, x)
  {
  }

  lemma {:induction false} CoveredNow(t: State, u: State, x: Sample)
    requires u.evidence == t.evidence[KeyOf(x) := x]
    ensures Covered(u, x)
  {
  }

  lemma {:induction false} KeptMore(s: State, o: Options, xs: seq<Sample>, i: int)
    requires xs != [] && Stored(s, o, xs, i)
    requires i < |xs| - 1 ==> Covered(Ingested(s, o, xs[..|xs| - 1]).0, xs[i])
    ensures 0 <= i < |xs| && Covered(Ingested(s, o, xs).0, xs[i])
  {
    StoredIn(s, o, xs, i);
    OneMore(s, o, xs);
    hide *;
    var n := |xs| - 1;
    var t, u := Ingested(s, o, xs[..n]).0, Ingested(s, o, xs).0;
    if i == n {
      CoveredNow(t, u, xs[n]);
    } else if Stored(s, o, xs, n) {
      CoveredMore(t, u, xs[i], xs[n]);
    } else {
      CoveredSame(t, u, xs[i]);
    }
  }

  lemma {:induction false} BatchKept(s: State, o: Options, xs: seq<Sample>)
    ensures Kept(s, o, xs)
    decreases |xs|
  {
    if xs != [] {
      var front := xs[..|xs| - 1];
      BatchKept(s, o, front);
      OneMore(s, o, xs);
      hide Ingested, FateAt, Stored, Covered;
      forall i | 0 <= i < |xs| && Stored(s, o, xs, i)
        ensures Covered(Ingested(s, o, xs).0, xs[i])
      {
        if i < |xs| - 1 {
          assert Stored(s, o, front, i) && front[i] == xs[i];
        }
        KeptMore(s, o, xs, i);
      }
    }
  }

  // ---- What a batch does to the registrations -------------------------------

  /** The samples a publisher had accepted, heartbeats included. */
  predicate Credited(s: State, o: Options, xs: seq<Sample>, p: Id, i: int) {
    0 <= i < |xs| && FateAt(s, o, xs, i).Accepted? && xs[i].publisher == p
  }

  /** `last` is the largest of the old value and the accepted samples' own. */
  ghost predicate Tops(s: State, o: Options, xs: seq<Sample>, p: Id, was: nat, last: nat, own: Sample -> nat) {
    && last >= was && (forall i | 0 <= i < |xs| && Credited(s, o, xs, p, i) :: last >= own(xs[i]))
    && (last == was || exists i :: 0 <= i < |xs| && Credited(s, o, xs, p, i) && last == own(xs[i]))
  }

  /** The registrations are the same incarnations, with the largest generation and sequence accepted. */
  ghost predicate Tracked(s: State, o: Options, xs: seq<Sample>) {
    var t := Ingested(s, o, xs).0;
    && t.publishers.Keys == s.publishers.Keys
    && (forall p | p in s.publishers ::
          && t.publishers[p].boot == s.publishers[p].boot
          && Tops(s, o, xs, p, s.publishers[p].lastGeneration, t.publishers[p].lastGeneration, (x: Sample) => x.generation)
          && Tops(s, o, xs, p, s.publishers[p].lastSequence, t.publishers[p].lastSequence, (x: Sample) => x.sequence))
  }

  lemma {:induction false} CreditedMore(s: State, o: Options, xs: seq<Sample>, p: Id)
    requires xs != []
    ensures var front, n := xs[..|xs| - 1], |xs| - 1;
            && (forall i | 0 <= i < n :: Credited(s, o, xs, p, i) <==> Credited(s, o, front, p, i))
            && (forall i | 0 <= i < n :: front[i] == xs[i])
  {
    hide FateOf;
    var front, n := xs[..|xs| - 1], |xs| - 1;
    forall i | 0 <= i < n
      ensures Credited(s, o, xs, p, i) <==> Credited(s, o, front, p, i)
    {
      Earlier(s, o, xs, i);
    }
  }

  lemma {:induction false} TopsMore(s: State, o: Options, xs: seq<Sample>, p: Id, was: nat, last: nat, next: nat,
                                    own: Sample -> nat)
    requires xs != [] && Tops(s, o, xs[..|xs| - 1], p, was, last, own)
    requires var x := xs[|xs| - 1];
             next == if Credited(s, o, xs, p, |xs| - 1) && own(x) > last then own(x) else last
    ensures Tops(s, o, xs, p, was, next, own)
  {
    hide Credited;
    CreditedMore(s, o, xs, p);
    var front, n := xs[..|xs| - 1], |xs| - 1;
    forall i | 0 <= i < |xs| && Credited(s, o, xs, p, i)
      ensures next >= own(xs[i])
    {
      if i < n {
        assert Credited(s, o, front, p, i) && front[i] == xs[i];
      }
    }
    if next == last && last != was {
      var i :| 0 <= i < n && Credited(s, o, front, p, i) && last == own(front[i]);
      assert Credited(s, o, xs, p, i);
    }
  }

  lemma {:induction false} TookTracks(t: State, o: Options, x: Sample)
    ensures var u := Took(t, o, x);
            && u.publishers.Keys == t.publishers.Keys
            && forall p | p in t.publishers ::
                 var was, now, mine := t.publishers[p], u.publishers[p], FateOf(t, o, x).Accepted? && x.publisher == p;
                 && now.boot == was.boot
                 && now.lastGeneration == (if mine && x.generation > was.lastGeneration then x.generation
                                           else was.lastGeneration)
                 && now.lastSequence == (if mine && x.sequence > was.lastSequence then x.sequence else was.lastSequence)
  {
  }

  lemma {:induction false} BatchTracked(s: State, o: Options, xs: seq<Sample>)
    ensures Tracked(s, o, xs)
    decreases |xs|
  {
    hide FateOf, Took, Tops;
    if xs == [] {
      NothingTops(s, o);
    } else {
      var front, n := xs[..|xs| - 1], |xs| - 1;
      BatchTracked(s, o, front);
      var t, u := Ingested(s, o, front).0, Ingested(s, o, xs).0;
      Earlier(s, o, xs, n);
      TookTracks(t, o, xs[n]);
      forall p | p in s.publishers
        ensures Tops(s, o, xs, p, s.publishers[p].lastGeneration, u.publishers[p].lastGeneration, (x: Sample) => x.generation)
        ensures Tops(s, o, xs, p, s.publishers[p].lastSequence, u.publishers[p].lastSequence, (x: Sample) => x.sequence)
      {
        TopsMore(s, o, xs, p, s.publishers[p].lastGeneration, t.publishers[p].lastGeneration,
                 u.publishers[p].lastGeneration, (x: Sample) => x.generation);
        TopsMore(s, o, xs, p, s.publishers[p].lastSequence, t.publishers[p].lastSequence,
                 u.publishers[p].lastSequence, (x: Sample) => x.sequence);
      }
    }
  }

  lemma {:induction false} NothingTops(s: State, o: Options)
    ensures forall p: Id, n: nat, own: Sample -> nat :: Tops(s, o, [], p, n, n, own)
  {
  }

  // ---- The tally ------------------------------------------------------------

  const REJECTIONS: set<Fate> :=
    {Rejected(NoResource), Rejected(OtherEpoch), Rejected(FencedOut), Rejected(Regressed), Rejected(Full)}

  /** The positions of a batch with one of some fates. */
  function Fated(s: State, o: Options, xs: seq<Sample>, which: set<Fate>): set<nat> {
    set i: nat | i < |xs| && FateAt(s, o, xs, i) in which
  }

  /** Each count of the tally is the number of positions with that fate. */
  ghost predicate Tallied(s: State, o: Options, xs: seq<Sample>, tally: Tally) {
    && tally.accepted == |Fated(s, o, xs, {Fate.Accepted})|
    && tally.duplicate == |Fated(s, o, xs, {Fate.Repeated})|
    && tally.rejected == |Fated(s, o, xs, REJECTIONS)|
    && tally.epochMismatch == |Fated(s, o, xs, {Rejected(OtherEpoch)})|
    && tally.fenced == |Fated(s, o, xs, {Rejected(FencedOut)})|
    && tally.regressed == |Fated(s, o, xs, {Rejected(Regressed)})|
    && tally.full == |Fated(s, o, xs, {Rejected(Full)})|
  }

  lemma {:induction false} FatedMore(s: State, o: Options, xs: seq<Sample>, which: set<Fate>)
    requires xs != []
    ensures |Fated(s, o, xs, which)|
         == |Fated(s, o, xs[..|xs| - 1], which)| + if FateAt(s, o, xs, |xs| - 1) in which then 1 else 0
  {
    hide FateAt;
    var front, n := xs[..|xs| - 1], |xs| - 1;
    forall i: nat | i < n
      ensures FateAt(s, o, xs, i) == FateAt(s, o, front, i)
    {
      Earlier(s, o, xs, i);
    }
    var was := Fated(s, o, front, which);
    assert Fated(s, o, xs, which) == if FateAt(s, o, xs, n) in which then was + {n} else was;
  }

  lemma {:induction false} BatchTallied(s: State, o: Options, xs: seq<Sample>)
    ensures Tallied(s, o, xs, Ingested(s, o, xs).1)
    decreases |xs|
  {
    hide FateOf, Took, Fated;
    if xs == [] {
      NoneFated(s, o);
    } else {
      var front := xs[..|xs| - 1];
      BatchTallied(s, o, front);
      Earlier(s, o, xs, |xs| - 1);
      FatedMore(s, o, xs, {Fate.Accepted});
      FatedMore(s, o, xs, {Fate.Repeated});
      FatedMore(s, o, xs, REJECTIONS);
      FatedMore(s, o, xs, {Rejected(OtherEpoch)});
      FatedMore(s, o, xs, {Rejected(FencedOut)});
      FatedMore(s, o, xs, {Rejected(Regressed)});
      FatedMore(s, o, xs, {Rejected(Full)});
    }
  }

  lemma {:induction false} NoneFated(s: State, o: Options)
    ensures forall which: set<Fate> :: Fated(s, o, [], which) == {}
  {
  }

  lemma {:induction false} BatchFrame(s: State, o: Options, xs: seq<Sample>)
    ensures var t := Ingested(s, o, xs).0; t == s.(evidence := t.evidence, publishers := t.publishers)
    decreases |xs|
  {
    hide FateOf, Seen;
    if xs != [] {
      BatchFrame(s, o, xs[..|xs| - 1]);
    }
  }

  /** A batch, both ways. Every sample stored is in the window afterwards under its key, or
      one that rises above it is; every key holds what it held or such a sample, and none
      is lost; each registration is the same incarnation at the largest generation and
      sequence accepted; the tally counts the fates; and nothing else changes. */
  lemma {:induction false} BatchExact(s: State, o: Options, xs: seq<Sample>)
    ensures Kept(s, o, xs) && Accounted(s, o, xs) && Tracked(s, o, xs)
    ensures Tallied(s, o, xs, Ingested(s, o, xs).1)
    ensures var t := Ingested(s, o, xs).0; t == s.(evidence := t.evidence, publishers := t.publishers)
  {
    BatchKept(s, o, xs);
    BatchAccounted(s, o, xs);
    BatchTracked(s, o, xs);
    BatchTallied(s, o, xs);
    BatchFrame(s, o, xs);
    hide Kept, Accounted, Tracked, Tallied, Ingested;
  }

  // ---- What an evaluation collects ------------------------------------------

  /** The resource is the domain's, or the domain's are not known. */
  predicate OfDomain(s: State, domain: Id, resource: Id) {
    match s.topology
    case None => true
    case Some(t) =>
      || (forall r | r in t.resources :: r.domain != domain)
      || (exists r | r in t.resources :: r.domain == domain && r.id == resource)
  }

  /** The window's order: by resource, then queue, then publisher. */
  predicate Ahead(a: Sample, b: Sample) {
    || a.resource < b.resource
    || (a.resource == b.resource && (a.queue < b.queue || (a.queue == b.queue && a.publisher < b.publisher)))
  }

  lemma {:induction false} ScopeMeans(s: State, domain: Id, x: Sample)
    ensures InScope(Members(s.topology, domain), x) <==> OfDomain(s, domain, x.resource)
  {
    match s.topology
    case None =>
    case Some(t) =>
      if r :| r in t.resources && r.domain == domain {
        assert r.id in Members(s.topology, domain);
      }
  }

  lemma {:induction false} InOrderSorted(keys: set<EvidenceKey>)
    ensures forall i, j | 0 <= i < j < |InOrder(keys)| :: Before(InOrder(keys)[i], InOrder(keys)[j])
    decreases keys
  {
    hide Before;
    if keys != {} {
      LeastExists(keys);
      var k := InOrder(keys)[0];
      assert Least(k, keys);
      InOrderSorted(keys - {k});
      var rest := InOrder(keys - {k});
      assert InOrder(keys) == [k] + rest;
      forall i | 0 <= i < |rest|
        ensures Before(k, rest[i])
      {
        assert rest[i] in rest;
        BeforeTotal(k, rest[i]);
      }
    }
  }

  lemma {:induction false} BeforeTotal(j: EvidenceKey, k: EvidenceKey)
    ensures j == k || Before(j, k) || Before(k, j)
  {
  }

  predicate Ascending(xs: seq<Sample>) {
    forall i, j | 0 <= i < j < |xs| :: Ahead(xs[i], xs[j])
  }

  lemma {:induction false} ScopedSorted(evidence: map<EvidenceKey, Sample>, keys: seq<EvidenceKey>, scope: set<Id>)
    requires forall k | k in keys :: k in evidence && KeyOf(evidence[k]) == k
    requires forall i, j | 0 <= i < j < |keys| :: Before(keys[i], keys[j])
    ensures Ascending(Scoped(evidence, keys, scope))
    ensures forall x | x in Scoped(evidence, keys, scope) :: InScope(scope, x) && KeyOf(x) in keys
    ensures forall k | k in keys && InScope(scope, evidence[k]) :: evidence[k] in Scoped(evidence, keys, scope)
    decreases |keys|
  {
    hide InScope;
    if keys != [] {
      var front, k := keys[..|keys| - 1], keys[|keys| - 1];
      assert keys == front + [k];
      ScopedSorted(evidence, front, scope);
      var r := Scoped(evidence, front, scope);
      forall i | 0 <= i < |r|
        ensures Ahead(r[i], evidence[k])
      {
        assert r[i] in r;
        var m :| 0 <= m < |front| && front[m] == KeyOf(r[i]);
        assert Before(keys[m], keys[|keys| - 1]);
      }
    }
  }

  lemma {:induction false} PrefixAhead(xs: seq<Sample>, bound: nat, x: Sample)
    requires Ascending(xs) && x in xs
    ensures Ascending(FirstOf(xs, bound)) && |FirstOf(xs, bound)| <= bound
    ensures x in FirstOf(xs, bound) || (|FirstOf(xs, bound)| == bound && forall y | y in FirstOf(xs, bound) :: Ahead(y, x))
  {
    hide Ahead;
    var m :| 0 <= m < |xs| && xs[m] == x;
    if m < bound {
      assert FirstOf(xs, bound)[m] == x;
    } else {
      forall y | y in FirstOf(xs, bound)
        ensures Ahead(y, x)
      {
        var i :| 0 <= i < bound && xs[i] == y;
      }
    }
  }

  /** What an evaluation collects, both ways: samples the window holds of the domain's
      resources, in its order, up to the batch bound; and one left out comes after all of
      a full batch. */
  lemma {:induction false} CollectedExact(s: State, domain: Id)
    requires EvidenceOk(s)
    ensures var r := Collected(s, domain);
            && |r| <= MAX_BATCH && Ascending(r)
            && (forall x | x in r :: OfDomain(s, domain, x.resource) && x in s.evidence.Values)
            && (forall x | x in s.evidence.Values && OfDomain(s, domain, x.resource) ::
                  x in r || (|r| == MAX_BATCH && forall y | y in r :: Ahead(y, x)))
  {
    hide InScope, OfDomain, Ahead, Members;
    var keys, scope := InOrder(s.evidence.Keys), Members(s.topology, domain);
    InOrderSorted(s.evidence.Keys);
    ScopedSorted(s.evidence, keys, scope);
    var all := Scoped(s.evidence, keys, scope);
    assert Ascending(FirstOf(all, MAX_BATCH)) && |FirstOf(all, MAX_BATCH)| <= MAX_BATCH;
    forall x | x in FirstOf(all, MAX_BATCH)
      ensures OfDomain(s, domain, x.resource) && x in s.evidence.Values
    {
      ScopeMeans(s, domain, x);
      assert x in all;
    }
    forall x | x in s.evidence.Values && OfDomain(s, domain, x.resource)
      ensures var r := FirstOf(all, MAX_BATCH); x in r || (|r| == MAX_BATCH && forall y | y in r :: Ahead(y, x))
    {
      ScopeMeans(s, domain, x);
      assert KeyOf(x) in keys;
      PrefixAhead(all, MAX_BATCH, x);
    }
  }
}
