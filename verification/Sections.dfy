/** What each locked section of the coordinator leaves behind, read off the state before it:
    registering, leaving, fencing, installing a policy, planning, advancing the epoch
    (src/fabric/fabric.cpp). */
module Sections {
  import opened Words
  import opened Model
  import opened Fabric
  import opened Window
  import H = Hysteresis
  import R = HysteresisRuns
  import L = Planner
  import P = Policy
  import T = Topology
  import W = Evaluation

  // ---- Publishers -----------------------------------------------------------

  /** Two states agree on a publisher's registration. */
  predicate SameRegistration(s: State, t: State, p: Id) {
    && (p in t.publishers <==> p in s.publishers)
    && (p in s.publishers ==> t.publishers[p] == s.publishers[p])
  }

  /** Registration, both ways: it succeeds exactly for named, unfenced incarnations of an
      open coordinator with room; the incarnation is then registered with nothing seen, and
      its first sample of the epoch is accepted if the window has room; a refusal, and
      every other registration, leaves things as they are. */
  lemma {:induction false} RegisterExact(s: State, o: Options, p: Id, b: Id, x: Sample)
    ensures var t := Registered(s, o, p, b);
            && (RegisterAnswer(s, o, p, b).Done? <==>
                  && p != 0 && b != 0 && !s.closed && (p, b) !in s.fences
                  && (p in s.publishers || |s.publishers| < o.maxPublishers))
            && (RegisterAnswer(s, o, p, b).Refused? ==> t == s)
            && t == s.(publishers := t.publishers)
            && (forall q | q != p :: SameRegistration(s, t, q))
            && (RegisterAnswer(s, o, p, b).Done? ==>
                  && p in t.publishers && t.publishers[p].boot == b
                  && (From(x, p, b) && x.resource != 0 && x.epoch == s.epoch
                      && (x.heartbeat || (KeyOf(x) !in s.evidence && |s.evidence| < o.maxEvidence))
                      ==> FateOf(t, o, x).Accepted?))
  {
  }

  /** A fence, both ways: it takes exactly the incarnation's registration and evidence, and
      adds exactly its own mark. */
  lemma {:induction false} FenceExact(s: State, p: Id, b: Id)
    requires !s.closed && p != 0 && b != 0
    ensures var t := FencedOne(s, p, b);
            && (forall q, c :: (q, c) in t.fences <==> (q, c) in s.fences || (q == p && c == b))
            && (forall k :: k in t.evidence <==>
                  k in s.evidence && !(s.evidence[k].publisher == p && s.evidence[k].boot == b))
            && (forall k | k in t.evidence :: t.evidence[k] == s.evidence[k])
            && (forall q :: q in t.publishers <==> q in s.publishers && !(q == p && s.publishers[q].boot == b))
            && (forall q | q in t.publishers :: t.publishers[q] == s.publishers[q])
            && t == s.(publishers := t.publishers, fences := t.fences, evidence := t.evidence)
  {
  }

  /** Leaving takes the incarnation's registration and nothing else; it may come back. */
  lemma {:induction false} LeaveExact(s: State, o: Options, p: Id, b: Id)
    requires !s.closed && Inv(s, o)
    ensures var t := Left(s, p, b);
            && (forall q :: q in t.publishers <==> q in s.publishers && !(q == p && s.publishers[q].boot == b))
            && (forall q | q in t.publishers :: t.publishers[q] == s.publishers[q])
            && t == s.(publishers := t.publishers)
            && (p in s.publishers && s.publishers[p].boot == b && p != 0 && b != 0 ==>
                  RegisterAnswer(t, o, p, b).Done?)
  {
    if p in s.publishers && s.publishers[p].boot == b {
      var t := Left(s, p, b);
      assert t.publishers.Keys == s.publishers.Keys - {p};
      assert |t.publishers| == |s.publishers| - 1;
    }
  }

  // ---- Authority ------------------------------------------------------------

  /** The machine as it was, but flagged if it shows a decided state. */
  predicate Flagged(m: H.Machine, n: H.Machine) {
    && n == m.(requiresRevalidation := n.requiresRevalidation)
    && (n.requiresRevalidation <==> m.requiresRevalidation || m.state in {Clear, Watch, Congested, Severe, Recovering})
  }

  /** A policy, both ways: exactly a valid one no older than the installed one is taken by an
      open coordinator; it is then the one in force, under a new generation, with no intent
      active and every decided domain flagged; and nothing else changes. */
  lemma {:induction false} PolicyExact(s: State, policy: P.Policy)
    ensures var t := PolicySet(s, policy);
            if P.Valid(policy) && !s.closed && s.policy.version <= policy.version then
              && t == s.(policy := policy, generation := s.generation + 1, intents := map[], domains := t.domains)
              && t.domains.Keys == s.domains.Keys
              && (forall d | d in s.domains :: Flagged(s.domains[d], t.domains[d]))
            else t == s
  {
    hide P.Valid;
  }

  /** A topology likewise. */
  lemma {:induction false} TopologyExact(s: State, topology: T.Snapshot)
    ensures var t := TopologySet(s, topology);
            if T.Accepted(topology) && !s.closed then
              && t == s.(topology := Some(topology), generation := s.generation + 1, intents := map[], domains := t.domains)
              && t.domains.Keys == s.domains.Keys
              && (forall d | d in s.domains :: Flagged(s.domains[d], t.domains[d]))
            else t == s
  {
    hide T.Accepted;
  }

  /** No decided state, flagged, with no change under way. */
  predicate Unsettled(m: H.Machine, n: H.Machine) {
    && n.state !in {Clear, Watch, Congested, Severe, Recovering}
    && (m.state in {CongestionState.Unknown, CongestionState.Stale, CongestionState.Conflict} ==> n.state == m.state)
    && n.requiresRevalidation && n.streak == 0
    && n == m.(state := n.state, requiresRevalidation := true, candidate := n.candidate, streak := 0)
  }

  /** An advance, both ways: the epoch and the generation after; no registration, evidence or
      intent; exactly the registered incarnations fenced besides the fenced ones; every
      domain unsettled; and the policy and topology as they were. */
  lemma {:induction false} AdvanceExact(s: State)
    requires !s.closed
    ensures var t := Advanced(s);
            && t == s.(epoch := s.epoch + 1, generation := s.generation + 1, publishers := map[], evidence := map[],
                       intents := map[], fences := t.fences, domains := t.domains)
            && (forall p, b :: (p, b) in t.fences <==>
                  (p, b) in s.fences || (p in s.publishers && s.publishers[p].boot == b))
            && t.domains.Keys == s.domains.Keys
            && (forall d | d in s.domains :: Unsettled(s.domains[d], t.domains[d]))
  {
  }

  /** An evaluation touches its own domain alone: the machine, and the intents if it could not decide. */
  lemma {:induction false} EvaluateExact(s: State, domain: Id, batch: Option<seq<Sample>>, now: Tick)
    ensures var t := EvaluatedTo(s, domain, batch, now);
            && t == s.(domains := t.domains, intents := t.intents)
            && (forall d | d != domain :: (d in t.domains <==> d in s.domains) && (d in t.intents <==> d in s.intents))
            && (forall d | d != domain && d in s.domains :: t.domains[d] == s.domains[d])
            && (forall d | d in t.intents :: d in s.intents && t.intents[d] == s.intents[d])
            && match AnswerTo(s, domain, batch, now)
               case None => t == s
               case Some(a) =>
                 && domain in t.domains && t.domains[domain] == a.machine
                 && (domain in t.intents <==> domain in s.intents && a.authoritative)
  {
    hide AnswerTo;
  }

  // ---- Intents --------------------------------------------------------------

  /** `r` is `list` at the positions `f`, which ascend. */
  predicate Picks(list: seq<L.Intent>, f: seq<nat>, r: seq<L.Intent>) {
    && |f| == |r| && (forall j | 0 <= j < |f| :: f[j] < |list| && r[j] == list[f[j]])
    && forall i, j | 0 <= i < j < |f| :: f[i] < f[j]
  }

  /** The positions one further on. */
  function Shifted(g: seq<nat>): (f: seq<nat>)
    ensures |f| == |g| && forall j | 0 <= j < |g| :: f[j] == g[j] + 1
  {
    seq(|g|, j requires 0 <= j < |g| => g[j] + 1)
  }

  lemma {:induction false} PicksShifted(list: seq<L.Intent>, g: seq<nat>, r: seq<L.Intent>)
    requires list != [] && Picks(list[1..], g, r)
    ensures Picks(list, Shifted(g), r) && Picks(list, [0] + Shifted(g), [list[0]] + r)
  {
    forall j | 0 <= j < |g|
      ensures list[Shifted(g)[j]] == r[j]
    {
      assert list[1..][g[j]] == list[g[j] + 1];
    }
  }

  lemma {:induction false} ShiftedHas(g: seq<nat>, i: nat)
    requires i in g
    ensures i + 1 in Shifted(g)
  {
    var j :| 0 <= j < |g| && g[j] == i;
    assert Shifted(g)[j] == i + 1;
  }

  lemma {:induction false} AtSuffix(g: seq<nat>, cut: nat, m: nat)
    requires cut <= |g| && m < |g|
    ensures m >= cut ==> g[m] in g[cut..]
  {
    if m >= cut {
      assert g[cut..][m - cut] == g[m];
    }
  }

  lemma {:induction false} UnexpiredPicks(list: seq<L.Intent>, now: nat) returns (f: seq<nat>)
    ensures Picks(list, f, Unexpired(list, now))
    ensures forall i | 0 <= i < |list| && i !in f :: L.Expired(list[i], now)
  {
    hide L.Expired, Picks, Shifted;
    if list == [] {
      NothingPicked();
      f := [];
    } else {
      var g := UnexpiredPicks(list[1..], now);
      PicksShifted(list, g, Unexpired(list[1..], now));
      f := if L.Expired(list[0], now) then Shifted(g) else [0] + Shifted(g);
      assert L.Expired(list[0], now) ==> Unexpired(list, now) == Unexpired(list[1..], now);
      forall i | 0 <= i < |list| && i !in f
        ensures L.Expired(list[i], now)
      {
        if i > 0 {
          if i - 1 in g {
            ShiftedHas(g, i - 1);
          }
          assert list[1..][i - 1] == list[i];
        }
      }
    }
  }

  lemma {:induction false} NothingPicked()
    ensures Picks([], [], [])
  {
  }

  lemma {:induction false} NewestPicks(list: seq<L.Intent>, g: seq<nat>, all: seq<L.Intent>, bound: nat)
    returns (f: seq<nat>)
    requires Picks(list, g, all)
    ensures Picks(list, f, Trimmed(all, bound)) && |f| == |Trimmed(all, bound)| <= bound
    ensures forall i | i in g && i !in f :: |f| == bound && forall j | 0 <= j < |f| :: i < f[j]
  {
    var cut := if |all| > bound then |all| - bound else 0;
    f := g[cut..];
    assert Trimmed(all, bound) == all[cut..];
    forall i | i in g && i !in f
      ensures |f| == bound && forall j | 0 <= j < |f| :: i < f[j]
    {
      var m :| 0 <= m < |g| && g[m] == i;
      AtSuffix(g, cut, m);
    }
  }

  /** What planning keeps of a domain's intents: unexpired ones in their order, the newest
      within the bound; one left out has expired, or is older than as many as the bound. */
  lemma {:induction false} RetainedExact(s: State, o: Options, domain: Id, now: nat) returns (f: seq<nat>)
    ensures var active, kept := ActiveAt(s, domain), Retained(s, o, domain, now);
            && Picks(active, f, kept) && |kept| <= o.maxIntents
            && (forall i | i in kept :: i.expires == 0 || now <= i.expires)
            && (forall i | 0 <= i < |active| && i !in f && (active[i].expires == 0 || now <= active[i].expires) ::
                  |kept| == o.maxIntents && forall j | 0 <= j < |f| :: i < f[j])
  {
    var active := ActiveAt(s, domain);
    hide ActiveAt, Picks, Trimmed;
    var g := UnexpiredPicks(active, now);
    f := NewestPicks(active, g, Unexpired(active, now), o.maxIntents);
  }

  lemma {:induction false} BoundAll(list: seq<L.Intent>, a: L.Authority)
    requires forall i | i in list :: L.BoundTo(i, a)
    ensures Bound(list, a) == list
    decreases |list|
  {
    hide L.BoundTo;
    if list != [] {
      var front := list[..|list| - 1];
      assert list == front + [list[|list| - 1]];
      BoundAll(front, a);
    }
  }

  /** Planning, both ways: the domain's intents are those retained and after them all that
      the plan authorizes, in its order; nothing else changes. */
  lemma {:induction false} PlannedExact(s: State, o: Options, domain: Id, outcome: L.Outcome, now: nat)
    requires !s.closed
    ensures var t := Planned(s, o, domain, outcome, now);
            && t == s.(intents := t.intents) && t.intents.Keys == s.intents.Keys + {domain}
            && (forall d | d in s.intents && d != domain :: t.intents[d] == s.intents[d])
            && t.intents[domain] == Retained(s, o, domain, now) + PlanAt(s, o, domain, outcome, now).authorized
  {
    hide L.PlanOf, L.BoundTo, MembersOf, Retained;
    var c := PlanContext(s, o, outcome.domain, now);
    forall i | i in PlanAt(s, o, domain, outcome, now).authorized
      ensures L.BoundTo(i, AuthorityOf(s, o))
    {
      AuthorizedBound(c, outcome, ActiveAt(s, domain), i);
    }
    BoundAll(PlanAt(s, o, domain, outcome, now).authorized, AuthorityOf(s, o));
  }

  /** The members a plan is made over are the domain's resources with their serving classes. */
  lemma {:induction false} MembersExact(t: T.Snapshot, domain: Id, id: Id, serving: Id)
    requires forall r, q | r in t.resources && q in t.resources && r.id == q.id :: r == q
    ensures L.Member(id, serving) in MembersOf(t, domain)
       <==> exists r :: r in t.resources && r.domain == domain && r.id == id && r.servingClass == serving
  {
    hide T.Sort, T.Unique, ClassOf;
    var ids := T.Unique(T.Sort(W.IdsIn(t.resources, domain)));
    var ms := MembersOf(t, domain);
    if m :| 0 <= m < |ms| && ms[m] == L.Member(id, serving) {
      assert ids[m] in ids;
      var r :| r in t.resources && r.domain == domain && r.id == id;
      ClassIs(t.resources, r);
    }
    if r :| r in t.resources && r.domain == domain && r.id == id && r.servingClass == serving {
      ClassIs(t.resources, r);
      assert id in ids;
      var m :| 0 <= m < |ids| && ids[m] == id;
      assert ms[m] == L.Member(id, serving);
    }
  }

  lemma {:induction false} ClassIs(rs: seq<T.Resource>, r: T.Resource)
    requires r in rs && forall p, q | p in rs && q in rs && p.id == q.id :: p == q
    ensures ClassOf(rs, r.id) == r.servingClass
  {
  }
}
